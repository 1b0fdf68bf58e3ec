/**
 * When the planner rejects its own draft, told from the classified candidates alone, with an input for each
 * of the two ways it can happen.
 */
module PlanRejections {
  import opened Wrappers
  import opened Ordering
  import opened Text
  import opened Components
  import opened ReconciliationModel
  import opened Partition
  import opened PlanSpec
  import opened PlanTheorems

  predicate Eligible(b: Base) { !b.bucket.UnsafeUnchanged? }

  predicate WritesTarget(b: Base, t: Id) { b.bucket.EligibleWrite? && b.target == Some(t) }

  predicate Supersedes(b: Base) { b.bucket.EligibleWrite? && b.target.Some? && b.replacement.Some? }

  /** The supersession edges that the writes among these would add. */
  ghost function PlannedLinks(bases: seq<Base>): set<(Id, Id)> {
    set b | b in bases && Supersedes(b) :: (b.target.value, b.replacement.value)
  }

  /**
   * What stands against this classified candidate: it is unsafe and connected to an eligible one, shares its
   * target with another write, has disagreeing subjects, closes a supersession cycle, or failed its proof.
   */
  ghost predicate Blocked(bases: seq<Base>, cs: seq<Candidate>, b: Base) {
    || (!Eligible(b) && exists o :: o in bases && Eligible(o) && SourcesConnected(bases, cs, o.source, b.source))
    || (b.bucket.EligibleWrite? && b.target.Some?
        && exists o :: o in bases && o != b && WritesTarget(o, b.target.value))
    || (Eligible(b) && SubjectMismatch(LastCandidate(cs, b.source), b))
    || (Eligible(b) && ClosesCycle(Relations(cs) + PlannedLinks(bases), b))
    || exists d :: d in cs && Unproved(d) && d.source == b.source
  }

  /** The source is connected to that of a blocked candidate. */
  ghost predicate NearBlocked(bases: seq<Base>, cs: seq<Candidate>, source: Id) {
    exists b :: b in bases && Blocked(bases, cs, b) && SourcesConnected(bases, cs, source, b.source)
  }

  /** Two candidates share a source, and either classify alike or have a blocked candidate in reach. */
  ghost predicate SourcesClash(bases: seq<Base>, cs: seq<Candidate>) {
    exists j, k :: 0 <= j < k < |bases| && bases[j].source == bases[k].source
      && (bases[j] == bases[k] || NearBlocked(bases, cs, bases[j].source))
  }

  // ----- causes of taint are blocked candidates -----

  /** Component ids of the plan at hand do not collide. */
  ghost predicate Separated(i: Input, bases: seq<Base>, digest: Digest) {
    CollisionFree(Vertices(bases, Chosen(i)), Links(bases, Chosen(i)), Less, digest)
  }

  lemma SameComponent(i: Input, bases: seq<Base>, digest: Digest, a: Base, b: Base)
    requires Separated(i, bases, digest) && a in bases && b in bases
    ensures var cs := Chosen(i);
      EntryOf(bases, cs, digest, a).component == EntryOf(bases, cs, digest, b).component <==>
        SourcesConnected(bases, cs, a.source, b.source)
  {
    LessOrders();
    SameComponentIffConnected(Vertices(bases, Chosen(i)), Links(bases, Chosen(i)), a.source, b.source, Less, digest);
  }

  lemma OverlapIffConnected(i: Input, bases: seq<Base>, digest: Digest, b: Base)
    requires Drafted(i, bases) && Separated(i, bases, digest) && b in bases
    ensures var cs := Chosen(i);
      Overlapping(EntriesOf(bases, cs, digest))(EntryOf(bases, cs, digest, b)) <==>
        !Eligible(b) && exists o :: o in bases && Eligible(o) && SourcesConnected(bases, cs, o.source, b.source)
  {
    var cs := Chosen(i);
    var es, e := EntriesOf(bases, cs, digest), EntryOf(bases, cs, digest, b);
    if o :| o in bases && Eligible(o) && SourcesConnected(bases, cs, o.source, b.source) {
      SameComponent(i, bases, digest, o, b);
      BaseHasEntry(i, bases, digest, o);
    }
    if o :| o in es && !IsUnchanged(o) && o.component == e.component {
      EntryHasBase(i, bases, digest, o);
      SameComponent(i, bases, digest, o.base, b);
    }
  }

  lemma RivalIsConflict(i: Input, bases: seq<Base>, digest: Digest, b: Base, o: Base, t: Id)
    requires Drafted(i, bases) && b in bases && o in bases && o != b && WritesTarget(b, t) && WritesTarget(o, t)
    ensures |WritesTo(EntriesOf(bases, Chosen(i), digest), t)| >= 2
  {
    var cs := Chosen(i);
    var es := EntriesOf(bases, cs, digest);
    BaseHasEntry(i, bases, digest, b);
    BaseHasEntry(i, bases, digest, o);
    var n :| 0 <= n < |es| && es[n] == EntryOf(bases, cs, digest, b);
    var m :| 0 <= m < |es| && es[m] == EntryOf(bases, cs, digest, o);
    assert WritesAt(es, n, t) && WritesAt(es, m, t) && n != m;
    var j, k := if n < m then n else m, if n < m then m else n;
    assert j < k && WritesAt(es, j, t) && WritesAt(es, k, t);
    RivalsAreGrouped(es, t);
  }

  lemma ConflictHasRival(i: Input, bases: seq<Base>, digest: Digest, b: Base, t: Id) returns (o: Base)
    requires Drafted(i, bases) && Distinct(EntriesOf(bases, Chosen(i), digest)) && b in bases
    requires |WritesTo(EntriesOf(bases, Chosen(i), digest), t)| >= 2
    ensures o in bases && o != b && WritesTarget(o, t)
  {
    var es, e := EntriesOf(bases, Chosen(i), digest), EntryOf(bases, Chosen(i), digest, b);
    RivalsAreGrouped(es, t);
    var j, k :| 0 <= j < k < |es| && WritesAt(es, j, t) && WritesAt(es, k, t);
    var m := if es[j] == e then k else j;
    EntryHasBase(i, bases, digest, es[m]);
    o := es[m].base;
  }

  lemma ConflictIffRival(i: Input, bases: seq<Base>, digest: Digest, b: Base)
    requires Drafted(i, bases) && Distinct(EntriesOf(bases, Chosen(i), digest)) && b in bases
    ensures var cs := Chosen(i);
      Conflicting(EntriesOf(bases, cs, digest))(EntryOf(bases, cs, digest, b)) <==>
        b.bucket.EligibleWrite? && b.target.Some? && exists o :: o in bases && o != b && WritesTarget(o, b.target.value)
  {
    if b.bucket.EligibleWrite? && b.target.Some? {
      var t := b.target.value;
      if o :| o in bases && o != b && WritesTarget(o, t) {
        RivalIsConflict(i, bases, digest, b, o, t);
      }
      if |WritesTo(EntriesOf(bases, Chosen(i), digest), t)| >= 2 {
        var o := ConflictHasRival(i, bases, digest, b, t);
      }
    }
  }

  lemma AdditionsArePlanned(i: Input, bases: seq<Base>, digest: Digest)
    requires Drafted(i, bases)
    ensures Additions(EntriesOf(bases, Chosen(i), digest)) == PlannedLinks(bases)
  {
    var es := EntriesOf(bases, Chosen(i), digest);
    forall r ensures r in Additions(es) <==> r in PlannedLinks(bases) {
      if e :| e in es && Plans(e) && r == (e.base.target.value, e.base.replacement.value) {
        EntryHasBase(i, bases, digest, e);
      }
      if b :| b in bases && Supersedes(b) && r == (b.target.value, b.replacement.value) {
        BaseHasEntry(i, bases, digest, b);
        assert Plans(EntryOf(bases, Chosen(i), digest, b));
      }
    }
  }

  lemma CauseIffBlocked(i: Input, bases: seq<Base>, digest: Digest, b: Base)
    requires Drafted(i, bases) && Separated(i, bases, digest) && b in bases
    requires Distinct(EntriesOf(bases, Chosen(i), digest))
    ensures var cs := Chosen(i);
      IsCause(EntriesOf(bases, cs, digest), cs, EntryOf(bases, cs, digest, b)) <==> Blocked(bases, cs, b)
  {
    OverlapIffConnected(i, bases, digest, b);
    ConflictIffRival(i, bases, digest, b);
    EdgesList(EntriesOf(bases, Chosen(i), digest), Chosen(i));
    AdditionsArePlanned(i, bases, digest);
  }

  lemma TaintedIffNearBlocked(i: Input, bases: seq<Base>, digest: Digest, b: Base)
    requires Drafted(i, bases) && Separated(i, bases, digest) && b in bases
    requires Distinct(EntriesOf(bases, Chosen(i), digest))
    ensures var cs := Chosen(i);
      EntryOf(bases, cs, digest, b).component in Causal(EntriesOf(bases, cs, digest), cs) <==>
        NearBlocked(bases, cs, b.source)
  {
    var cs := Chosen(i);
    var es, mine := EntriesOf(bases, cs, digest), EntryOf(bases, cs, digest, b).component;
    CausalIsComponentsOfCauses(i, bases, digest, mine);
    if e :| e in es && IsCause(es, cs, e) && e.component == mine {
      EntryHasBase(i, bases, digest, e);
      CauseIffBlocked(i, bases, digest, e.base);
      SameComponent(i, bases, digest, b, e.base);
    }
    if o :| o in bases && Blocked(bases, cs, o) && SourcesConnected(bases, cs, b.source, o.source) {
      BaseHasEntry(i, bases, digest, o);
      CauseIffBlocked(i, bases, digest, o);
      SameComponent(i, bases, digest, b, o);
    }
  }

  // ----- the exact condition -----

  lemma TwoBasesClash(bases: seq<Base>, cs: seq<Candidate>, a: Base, b: Base)
    requires a in bases && b in bases && a != b && a.source == b.source && NearBlocked(bases, cs, a.source)
    ensures SourcesClash(bases, cs)
  {
    var m :| 0 <= m < |bases| && bases[m] == a;
    var n :| 0 <= n < |bases| && bases[n] == b;
    var j, k := if m < n then m else n, if m < n then n else m;
    assert j < k && bases[j].source == bases[k].source;
  }

  lemma RepeatIsClash(i: Input, bases: seq<Base>, digest: Digest, x: Entry, y: Entry)
    requires Drafted(i, bases) && Separated(i, bases, digest)
    requires var es := EntriesOf(bases, Chosen(i), digest);
      && Distinct(es) && x in es && y in es && x != y && x.component in Causal(es, Chosen(i))
    requires x.base.source == y.base.source
    ensures SourcesClash(bases, Chosen(i))
  {
    EntryHasBase(i, bases, digest, x);
    EntryHasBase(i, bases, digest, y);
    TaintedIffNearBlocked(i, bases, digest, x.base);
    TwoBasesClash(bases, Chosen(i), x.base, y.base);
  }

  lemma ClashIsRepeat(i: Input, bases: seq<Base>, digest: Digest, j: nat, k: nat)
    requires Drafted(i, bases) && Separated(i, bases, digest)
    requires Distinct(bases) && Distinct(EntriesOf(bases, Chosen(i), digest))
    requires j < k < |bases| && bases[j].source == bases[k].source
    requires NearBlocked(bases, Chosen(i), bases[j].source)
    ensures !TaintsOnce(i, bases, digest)
  {
    TaintedIffNearBlocked(i, bases, digest, bases[j]);
    TaintedIffNearBlocked(i, bases, digest, bases[k]);
    BaseHasEntry(i, bases, digest, bases[j]);
    BaseHasEntry(i, bases, digest, bases[k]);
  }

  lemma TaintsOnceIffNoClash(i: Input, bases: seq<Base>, digest: Digest)
    requires Drafted(i, bases) && Separated(i, bases, digest)
    requires Distinct(bases) && Distinct(EntriesOf(bases, Chosen(i), digest))
    ensures TaintsOnce(i, bases, digest) <==> !SourcesClash(bases, Chosen(i))
  {
    var cs := Chosen(i);
    var es := EntriesOf(bases, cs, digest);
    if !TaintsOnce(i, bases, digest) {
      var x, y :| x in es && y in es && x != y && x.base.source == y.base.source
        && x.component in Causal(es, cs) && y.component in Causal(es, cs);
      RepeatIsClash(i, bases, digest, x, y);
    }
    if SourcesClash(bases, cs) {
      var j, k :| 0 <= j < k < |bases| && bases[j].source == bases[k].source
        && (bases[j] == bases[k] || NearBlocked(bases, cs, bases[j].source));
      ClashIsRepeat(i, bases, digest, j, k);
    }
  }

  lemma DraftIsValidIffNoClash(i: Input, bases: seq<Base>, digest: Digest)
    requires Drafted(i, bases) && SafeHighWater(i.highWater) && Separated(i, bases, digest)
    requires forall vs :: IsComponentId(digest(vs))
    ensures ValidPlan(Draft(i, bases, digest)) <==> !SourcesClash(bases, Chosen(i))
  {
    DraftIsValidIff(i, bases, digest);
    if Distinct(bases) {
      EntriesStepUpIff(i, bases, digest);
      TaintsOnceIffNoClash(i, bases, digest);
    } else {
      var j, k :| 0 <= j < k < |bases| && bases[j] == bases[k];
      assert bases[j].source == bases[k].source;
    }
  }

  lemma DraftDecides(i: Input, bases: seq<Base>, digest: Digest)
    requires Drafted(i, bases)
    ensures BuildSpec(i, digest) ==
      if ValidPlan(Draft(i, bases, digest)) then Ok(Draft(i, bases, digest)) else Err(PlanRejected)
  {
  }

  /**
   * The planner rejects its own draft exactly when two of the chosen candidates share a source and either
   * classify alike, or have their source connected to that of a blocked candidate.
   */
  lemma RejectsItsDraftIff(i: Input, bases: seq<Base>, digest: Digest)
    requires Drafted(i, bases) && SafeHighWater(i.highWater) && Separated(i, bases, digest)
    requires forall vs :: IsComponentId(digest(vs))
    ensures BuildSpec(i, digest) ==
      if SourcesClash(bases, Chosen(i)) then Err(PlanRejected) else Ok(Draft(i, bases, digest))
  {
    DraftIsValidIffNoClash(i, bases, digest);
    DraftDecides(i, bases, digest);
  }

  lemma AcceptedWhen(i: Input, bases: seq<Base>, digest: Digest)
    requires Drafted(i, bases) && SafeHighWater(i.highWater) && forall vs :: IsComponentId(digest(vs))
    requires Distinct(bases) && TaintsOnce(i, bases, digest)
    ensures BuildSpec(i, digest).Ok?
  {
    DraftIsValidIff(i, bases, digest);
    DraftDecides(i, bases, digest);
  }

  lemma RejectedWhen(i: Input, bases: seq<Base>, digest: Digest)
    requires Drafted(i, bases) && SafeHighWater(i.highWater) && forall vs :: IsComponentId(digest(vs))
    requires !Distinct(bases) || !TaintsOnce(i, bases, digest)
    ensures BuildSpec(i, digest) == Err(PlanRejected)
  {
    DraftIsValidIff(i, bases, digest);
    DraftDecides(i, bases, digest);
  }

  // ----- two inputs that are rejected, and one that is not -----

  /** A candidate held back for this reason. */
  function Held(source: Id, reason: Reason, proved: Option<bool>): Candidate {
    Candidate(source, None, None, None, Some(reason), None, [], [], None, None, None, proved)
  }

  function HeldBase(source: Id, reason: Reason): Base { Base(source, None, None, UnsafeUnchanged, DoNone, reason) }

  /** The planner gets as far as choosing two candidates of one source, held back for these reasons. */
  ghost predicate HoldsPair(i: Input, source: Id, r: Reason, s: Reason, proved: Option<bool>) {
    && InputError(i).None? && SafeHighWater(i.highWater) && IsEventId(source) && IsUnsafe(r) && IsUnsafe(s)
    && Chosen(i) == [Held(source, r, proved), Held(source, s, None)]
  }

  lemma PairIsDrafted(i: Input, source: Id, r: Reason, s: Reason, proved: Option<bool>)
    requires HoldsPair(i, source, r, s, proved)
    ensures Drafted(i, [HeldBase(source, r), HeldBase(source, s)])
    ensures proved.None? ==> forall c :: c in Chosen(i) ==> !Unproved(c)
  {
    var cs, bases := Chosen(i), [HeldBase(source, r), HeldBase(source, s)];
    assert forall c :: c in cs ==> c == cs[0] || c == cs[1];
    ClassifyAllPointwise(cs);
    assert ClassifyAll(cs).value == bases;
  }

  lemma EqualPairIsRejected(i: Input, source: Id, r: Reason, digest: Digest)
    requires HoldsPair(i, source, r, r, None) && forall vs :: IsComponentId(digest(vs))
    ensures BuildSpec(i, digest) == Err(PlanRejected)
  {
    var bases := [HeldBase(source, r), HeldBase(source, r)];
    PairIsDrafted(i, source, r, r, None);
    assert bases[0] == bases[1];
    RejectedWhen(i, bases, digest);
  }

  lemma PairIsTainted(i: Input, bases: seq<Base>, digest: Digest, c: Candidate)
    requires Drafted(i, bases) && |bases| == 2 && bases[0] != bases[1] && bases[0].source == bases[1].source
    requires c in Chosen(i) && Unproved(c) && c.source == bases[0].source
    ensures !TaintsOnce(i, bases, digest)
  {
    var cs := Chosen(i);
    var es := EntriesOf(bases, cs, digest);
    var x, y := EntryOf(bases, cs, digest, bases[0]), EntryOf(bases, cs, digest, bases[1]);
    BaseHasEntry(i, bases, digest, bases[0]);
    BaseHasEntry(i, bases, digest, bases[1]);
    CausalIsComponentsOfCauses(i, bases, digest, x.component);
    assert IsCause(es, cs, x) && x.component == y.component;
    assert SourceRepeats(es, Causal(es, cs));
  }

  lemma UnprovedPairIsTainted(i: Input, source: Id, r: Reason, s: Reason, digest: Digest)
    requires HoldsPair(i, source, r, s, Some(false)) && r != s
    ensures var bases := [HeldBase(source, r), HeldBase(source, s)];
      Drafted(i, bases) && Distinct(bases) && !TaintsOnce(i, bases, digest)
  {
    PairIsDrafted(i, source, r, s, Some(false));
    FirstIsChosen(i, source, r, s, Some(false));
    PairIsTainted(i, [HeldBase(source, r), HeldBase(source, s)], digest, Held(source, r, Some(false)));
  }

  lemma UnprovedPairIsRejected(i: Input, source: Id, r: Reason, s: Reason, digest: Digest)
    requires HoldsPair(i, source, r, s, Some(false)) && r != s && forall vs :: IsComponentId(digest(vs))
    ensures BuildSpec(i, digest) == Err(PlanRejected)
  {
    UnprovedPairIsTainted(i, source, r, s, digest);
    RejectedWhen(i, [HeldBase(source, r), HeldBase(source, s)], digest);
  }

  lemma FirstIsChosen(i: Input, source: Id, r: Reason, s: Reason, proved: Option<bool>)
    requires HoldsPair(i, source, r, s, proved)
    ensures Held(source, r, proved) in Chosen(i)
  {
    assert Chosen(i)[0] == Held(source, r, proved);
  }

  lemma UnchangedHasNoCause(es: seq<Entry>, cs: seq<Candidate>, e: Entry)
    requires e in es && forall o :: o in es ==> IsUnchanged(o)
    requires forall c :: c in cs ==> !Unproved(c)
    ensures !IsCause(es, cs, e)
  {
  }

  lemma NothingBlockedTaintsNothing(i: Input, bases: seq<Base>, digest: Digest)
    requires Drafted(i, bases) && forall b :: b in bases ==> !Eligible(b)
    requires forall c :: c in Chosen(i) ==> !Unproved(c)
    ensures TaintsOnce(i, bases, digest)
  {
    var cs := Chosen(i);
    var es := EntriesOf(bases, cs, digest);
    forall e | e in es ensures IsUnchanged(e) {
      EntryHasBase(i, bases, digest, e);
    }
    forall e | e in es ensures e.component !in Causal(es, cs) {
      CausalIsComponentsOfCauses(i, bases, digest, e.component);
      forall o | o in es ensures !IsCause(es, cs, o) {
        UnchangedHasNoCause(es, cs, o);
      }
    }
  }

  lemma UnblockedPairIsAccepted(i: Input, source: Id, r: Reason, s: Reason, digest: Digest)
    requires HoldsPair(i, source, r, s, None) && r != s && forall vs :: IsComponentId(digest(vs))
    ensures BuildSpec(i, digest).Ok?
  {
    var bases := [HeldBase(source, r), HeldBase(source, s)];
    PairIsDrafted(i, source, r, s, None);
    assert Distinct(bases);
    assert TaintsOnce(i, bases, digest) by {
      NothingBlockedTaintsNothing(i, bases, digest);
    }
    AcceptedWhen(i, bases, digest);
  }

  function PairInput(c: Candidate, d: Candidate): Input {
    Input("tz_aaa", "aaa", "aaa", 10, 2, HighWater(0, 0, 0, 0, 0), [c, d], {})
  }

  const SOURCE := "evt_aaaaaaaa"

  lemma FixedIdsAreValid()
    ensures IsEventId(SOURCE) && IsZoneId("tz_aaa") && IsPolicyId("aaa")
  {
  }

  lemma PairIsChosen(c: Candidate, d: Candidate)
    requires c.source == d.source && c.policyVersion == d.policyVersion
    ensures Chosen(PairInput(c, d)) == [c, d] && InputError(PairInput(c, d)).None?
  {
    FixedIdsAreValid();
    Irreflexive(c.source);
    Irreflexive(OrEmpty(c.policyVersion));
    assert [c, d][1..] == [d] && [d][1..] == [];
    assert SortBy([d], CandidateBefore) == [d];
    assert SortBy([c, d], CandidateBefore) == [c, d];
  }

  /** The same candidate twice: the planner rejects its plan. */
  lemma RepeatedCandidateIsRejected(digest: Digest)
    requires forall vs :: IsComponentId(digest(vs))
    ensures BuildSpec(
      PairInput(Held(SOURCE, MissingUnsafe, None), Held(SOURCE, MissingUnsafe, None)), digest) == Err(PlanRejected)
  {
    var c := Held(SOURCE, MissingUnsafe, None);
    FixedIdsAreValid();
    PairIsChosen(c, c);
    EqualPairIsRejected(PairInput(c, c), SOURCE, MissingUnsafe, digest);
  }

  /** One source held back for two reasons, one of them with a failed proof: no entry repeats, and still. */
  lemma FailedProofIsRejected(digest: Digest)
    requires forall vs :: IsComponentId(digest(vs))
    ensures var i := PairInput(Held(SOURCE, MissingUnsafe, Some(false)), Held(SOURCE, AmbiguousUnsafe, None));
      var bases := [HeldBase(SOURCE, MissingUnsafe), HeldBase(SOURCE, AmbiguousUnsafe)];
      && Drafted(i, bases) && Distinct(bases) && !TaintsOnce(i, bases, digest)
      && BuildSpec(i, digest) == Err(PlanRejected)
  {
    var c, d := Held(SOURCE, MissingUnsafe, Some(false)), Held(SOURCE, AmbiguousUnsafe, None);
    FixedIdsAreValid();
    PairIsChosen(c, d);
    UnprovedPairIsTainted(PairInput(c, d), SOURCE, MissingUnsafe, AmbiguousUnsafe, digest);
    UnprovedPairIsRejected(PairInput(c, d), SOURCE, MissingUnsafe, AmbiguousUnsafe, digest);
  }

  /** The same with nothing failed: sharing a source alone is accepted. */
  lemma SharedSourceCanBeAccepted(digest: Digest)
    requires forall vs :: IsComponentId(digest(vs))
    ensures BuildSpec(
      PairInput(Held(SOURCE, MissingUnsafe, None), Held(SOURCE, AmbiguousUnsafe, None)), digest).Ok?
  {
    var c, d := Held(SOURCE, MissingUnsafe, None), Held(SOURCE, AmbiguousUnsafe, None);
    FixedIdsAreValid();
    PairIsChosen(c, d);
    UnblockedPairIsAccepted(PairInput(c, d), SOURCE, MissingUnsafe, AmbiguousUnsafe, digest);
  }
}
