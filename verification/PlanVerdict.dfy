/**
 * The verdict of a built plan, told from its entries and the candidates it takes: its counts, which taints it
 * lists, and which components and sources it holds back.
 */
module PlanVerdict {
  import opened Wrappers
  import opened Ordering
  import opened Text
  import opened Reachability
  import opened Components
  import opened ReconciliationModel
  import opened Partition
  import opened PlanSpec
  import opened PlanTheorems
  import opened PlanContents

  // ----- the header and the counts -----

  /** The plan repeats what it was asked, says how much it took, and whether that is all there is. */
  lemma PlanHeader(i: Input, digest: Digest)
    requires BuildSpec(i, digest).Ok?
    ensures var p := BuildSpec(i, digest).value;
      && p.zone == i.zone && p.fromPolicy == i.fromPolicy && p.toPolicy == i.toPolicy
      && p.limit == i.limit && p.total == i.total && p.highWater == i.highWater
      && p.classified == |p.entries| == Min(i.total, i.limit)
      && (p.truncated <==> i.total > i.limit)
  {
    var bases := PlanIsDrafted(i, digest);
  }

  lemma {:induction false} CountOfInsert<T>(x: T, s: seq<T>, lt: (T, T) -> bool, p: T -> bool)
    ensures Count(Insert(x, s, lt), p) == Count(s, p) + if p(x) then 1 else 0
  {
    if s != [] && lt(s[0], x) {
      CountOfInsert(x, s[1..], lt, p);
      assert Insert(x, s, lt)[1..] == Insert(x, s[1..], lt);
    } else {
      assert ([x] + s)[1..] == s;
    }
  }

  lemma {:induction false} CountOfSort<T>(s: seq<T>, lt: (T, T) -> bool, p: T -> bool)
    ensures Count(SortBy(s, lt), p) == Count(s, p)
  {
    if s != [] {
      CountOfSort(s[1..], lt, p);
      CountOfInsert(s[0], SortBy(s[1..], lt), lt, p);
    }
  }

  lemma {:induction false} CountPointwise<S, T>(s: seq<S>, t: seq<T>, p: S -> bool, q: T -> bool)
    requires |s| == |t| && forall k :: 0 <= k < |s| ==> (p(s[k]) <==> q(t[k]))
    ensures Count(s, p) == Count(t, q)
  {
    if s != [] {
      assert p(s[0]) <==> q(t[0]);
      forall k | 0 <= k < |s| - 1 ensures p(s[1..][k]) <==> q(t[1..][k]) {
        assert s[1..][k] == s[k + 1] && t[1..][k] == t[k + 1];
      }
      CountPointwise(s[1..], t[1..], p, q);
    }
  }

  /** An entry has the one property exactly when the candidate it answers has the other. */
  ghost predicate Alike(p: Entry -> bool, q: Candidate -> bool) {
    forall b, c, id {:trigger Answers(b, c), Entry(b, id)} :: Answers(b, c) ==> (p(Entry(b, id)) <==> q(c))
  }

  lemma CountOfEntries(i: Input, bases: seq<Base>, digest: Digest, p: Entry -> bool, q: Candidate -> bool)
    requires Drafted(i, bases)
    requires Alike(p, q)
    ensures Count(EntriesOf(bases, Chosen(i), digest), p) == Count(Chosen(i), q)
  {
    var attached := Attach(bases, Chosen(i), digest);
    CountOfSort(attached, EntryBefore, p);
    DraftLengths(i, bases, digest);
    forall k | 0 <= k < |attached| ensures p(attached[k]) <==> q(Chosen(i)[k]) {
      BaseAnswers(i, bases, k);
    }
    CountPointwise(attached, Chosen(i), p, q);
  }

  predicate AsksWrite(c: Candidate) { AsksReplace(c) || AsksInvalidate(c) }

  predicate AsksNothing(c: Candidate) { !AsksSomething(c) }

  lemma IntentsAreAlike()
    ensures Alike(IsReplace, AsksReplace) && Alike(IsInvalidate, AsksInvalidate)
    ensures Alike(IsAlreadyApplied, SaysApplied) && Alike(IsNoop, SaysApplied)
    ensures Alike(IsWrite, AsksWrite) && Alike(IsUnchanged, AsksNothing)
  {
  }

  ghost predicate CountsIntents(n: Counts, cs: seq<Candidate>) {
    && n.replacements == Count(cs, AsksReplace) && n.invalidations == Count(cs, AsksInvalidate)
    && n.writes == Count(cs, AsksWrite)
    && n.alreadyApplied == n.noops == Count(cs, SaysApplied)
    && n.unsafe == Count(cs, AsksNothing)
  }

  lemma DraftCountsIntents(i: Input, bases: seq<Base>, digest: Digest)
    requires Drafted(i, bases)
    ensures CountsIntents(CountsOf(EntriesOf(bases, Chosen(i), digest)), Chosen(i))
  {
    IntentsAreAlike();
    CountOfEntries(i, bases, digest, IsReplace, AsksReplace);
    CountOfEntries(i, bases, digest, IsInvalidate, AsksInvalidate);
    CountOfEntries(i, bases, digest, IsAlreadyApplied, SaysApplied);
    CountOfEntries(i, bases, digest, IsWrite, AsksWrite);
    CountOfEntries(i, bases, digest, IsNoop, SaysApplied);
    CountOfEntries(i, bases, digest, IsUnchanged, AsksNothing);
  }

  /** The counts of a plan are those of what its candidates ask for, and of the reasons of its entries. */
  lemma CountsAreOfCandidates(i: Input, digest: Digest)
    requires BuildSpec(i, digest).Ok?
    ensures var p := BuildSpec(i, digest).value;
      CountsIntents(p.counts, Chosen(i)) && ValidReasonCounts(p.entries, p.counts.reasons)
  {
    var bases := PlanIsDrafted(i, digest);
    DraftCountsIntents(i, bases, digest);
  }

  // ----- what stands against an entry -----

  predicate Held(e: Entry) { e.base.bucket.UnsafeUnchanged? }

  predicate WritesOn(e: Entry, t: Id) { e.base.bucket.EligibleWrite? && e.base.target == Some(t) }

  /** It is held back in one component with an entry that is not. */
  ghost predicate Overlaps(es: seq<Entry>, e: Entry) {
    Held(e) && exists o :: o in es && !Held(o) && o.component == e.component
  }

  /** Another entry writes to its target. */
  ghost predicate Rivals(es: seq<Entry>, e: Entry) {
    exists o, t :: o in es && o != e && WritesOn(e, t) && WritesOn(o, t)
  }

  /** The candidate names another subject for the target or the replacement. */
  predicate SubjectsDiffer(c: Candidate, e: Entry) {
    c.subject.Some? && (
      || (c.targetSubject.Some? && c.targetSubject.value != c.subject.value)
      || (e.base.replacement.Some? && c.replacementSubject.Some? && c.replacementSubject.value != c.subject.value))
  }

  /** It acts although the last candidate of its source names different subjects. */
  ghost predicate Disagrees(cs: seq<Candidate>, e: Entry) {
    !Held(e) && exists k :: LastOfSource(cs, k, e.base.source) && SubjectsDiffer(cs[k], e)
  }

  ghost predicate LastOfSource(cs: seq<Candidate>, k: int, source: Id) {
    0 <= k < |cs| && cs[k].source == source && forall m :: k < m < |cs| ==> cs[m].source != source
  }

  /** Supersession as the candidates know it, and as the plan would have it. */
  ghost function Supersession(es: seq<Entry>, cs: seq<Candidate>): set<(Id, Id)> {
    (set c, r | c in cs && r in c.relations :: r)
    + set e | e in es && e.base.bucket.EligibleWrite? && e.base.target.Some? && e.base.replacement.Some? ::
        (e.base.target.value, e.base.replacement.value)
  }

  /** It acts although its replacement leads back to its target. */
  ghost predicate Circles(es: seq<Entry>, cs: seq<Candidate>, e: Entry) {
    && !Held(e) && e.base.target.Some? && e.base.replacement.Some?
    && Reach(Supersession(es, cs), e.base.replacement.value, e.base.target.value)
  }

  /** A candidate of its source failed its conformance proof. */
  ghost predicate Fails(cs: seq<Candidate>, e: Entry) {
    exists c :: c in cs && c.source == e.base.source && c.conformanceProved == Some(false)
  }

  ghost predicate Cause(es: seq<Entry>, cs: seq<Candidate>, e: Entry) {
    Overlaps(es, e) || Rivals(es, e) || Disagrees(cs, e) || Circles(es, cs, e) || Fails(cs, e)
  }

  lemma {:induction false} LastIs(cs: seq<Candidate>, source: Id)
    ensures LastCandidate(cs, source).None? <==> forall k :: 0 <= k < |cs| ==> cs[k].source != source
    ensures forall k :: LastOfSource(cs, k, source) ==> LastCandidate(cs, source) == Some(cs[k])
    ensures LastCandidate(cs, source).Some? ==> exists k :: LastOfSource(cs, k, source)
  {
    if cs != [] {
      var n := |cs| - 1;
      LastIs(cs[..n], source);
      if cs[n].source == source {
        assert LastOfSource(cs, n, source);
      } else {
        forall k | LastOfSource(cs, k, source) ensures LastOfSource(cs[..n], k, source) {
          assert k < n;
        }
        forall k | LastOfSource(cs[..n], k, source) ensures LastOfSource(cs, k, source) {
        }
      }
    }
  }

  lemma DisagreesIff(cs: seq<Candidate>, e: Entry)
    ensures Mismatched(cs)(e) <==> Disagrees(cs, e)
  {
    LastIs(cs, e.base.source);
    if Mismatched(cs)(e) {
      var k :| LastOfSource(cs, k, e.base.source);
      assert LastCandidate(cs, e.base.source) == Some(cs[k]);
    }
  }

  lemma RivalsIff(es: seq<Entry>, e: Entry)
    requires Distinct(es) && e in es
    ensures Conflicting(es)(e) <==> Rivals(es, e)
  {
    if IsWrite(e) && e.base.target.Some? {
      var t := e.base.target.value;
      RivalsAreGrouped(es, t);
      var n :| 0 <= n < |es| && es[n] == e;
      if j, k :| 0 <= j < k < |es| && WritesAt(es, j, t) && WritesAt(es, k, t) {
        var m := if j == n then k else j;
        assert es[m] != es[n] && WritesOn(es[m], t) && WritesOn(e, t);
      }
      if o :| o in es && o != e && WritesOn(o, t) {
        var m :| 0 <= m < |es| && es[m] == o;
        assert WritesAt(es, m, t) && WritesAt(es, n, t);
        var j, k := if m < n then m else n, if m < n then n else m;
        assert j < k && WritesAt(es, j, t) && WritesAt(es, k, t);
      }
    }
  }

  lemma SupersessionIs(es: seq<Entry>, cs: seq<Candidate>)
    ensures Elements(Edges(es, cs)) == Supersession(es, cs)
  {
    EdgesList(es, cs);
    assert Additions(es) == set e | e in es && e.base.bucket.EligibleWrite? && e.base.target.Some?
      && e.base.replacement.Some? :: (e.base.target.value, e.base.replacement.value);
  }

  lemma CauseIff(es: seq<Entry>, cs: seq<Candidate>, e: Entry)
    requires Distinct(es) && e in es
    ensures IsCause(es, cs, e) <==> Cause(es, cs, e)
  {
    RivalsIff(es, e);
    DisagreesIff(cs, e);
    SupersessionIs(es, cs);
  }

  // ----- what the plan lists -----

  /** Held back for this reason in one of these components. */
  ghost predicate HeldIn(es: seq<Entry>, tainted: set<string>, r: Reason) {
    exists e :: e in es && Held(e) && e.component in tainted && e.base.reason == r
  }

  /** The taint that a reason to hold an entry back stands for, if any. */
  predicate StandsFor(r: Reason, t: Taint) {
    || (r.ConflictingIntentUnsafe? && t.ConflictingEligibleIntent?)
    || (r.CycleUnsafe? && t.EligibleReachableCycle?)
    || (r.ImportedUnsafe? && t.EligibleImportedSharedLineage?)
    || (r.ZoneUnsafe? && t.EligibleCrossZone?)
  }

  /** What in the plan shows this taint directly. */
  ghost predicate Shows(i: Input, es: seq<Entry>, cs: seq<Candidate>, t: Taint) {
    match t
    case IncompleteEnumeration => i.total > i.limit
    case EligibleUnsafeOverlap => exists e :: e in es && Overlaps(es, e)
    case UnsafeInfluencesEligible => exists e :: e in es && Overlaps(es, e)
    case ConflictingEligibleIntent => exists e :: e in es && Rivals(es, e)
    case EligibleSubjectUncertainty => exists e :: e in es && Disagrees(cs, e)
    case EligibleReachableCycle => exists e :: e in es && Circles(es, cs, e)
    case UnprovedConformance => exists e :: e in es && Fails(cs, e)
    case _ => false
  }

  /** Why a plan lists a taint: imposed, shown by its entries, or what an entry in a tainted component stands for. */
  ghost predicate Warrants(i: Input, es: seq<Entry>, cs: seq<Candidate>, tainted: set<string>, t: Taint) {
    t in i.givenTaints || Shows(i, es, cs, t) || exists r :: StandsFor(r, t) && HeldIn(es, tainted, r)
  }

  lemma SomeWhere(es: seq<Entry>, p: Entry -> bool)
    ensures Where(es, p) != {} <==> exists e :: e in es && p(e)
  {
    if e :| e in es && p(e) {
      assert e.component in Where(es, p);
    }
    if c :| c in Where(es, p) {
      var e := WhereHasEntry(es, p, c);
    }
  }

  lemma SomeUnproved(es: seq<Entry>, cs: seq<Candidate>)
    ensures UnprovedComponents(es, cs) != {} <==> exists e :: e in es && Fails(cs, e)
  {
    if c :| c in UnprovedComponents(es, cs) {
      var d :| d in cs && Unproved(d) && FirstEntry(es, d.source).Some?;
      FirstEntryOccurs(es, d.source);
      assert Fails(cs, FirstEntry(es, d.source).value);
    }
    if e :| e in es && Fails(cs, e) {
      var d :| d in cs && d.source == e.base.source && d.conformanceProved == Some(false);
      FirstEntryOccurs(es, d.source);
      assert FirstEntry(es, d.source).value.component in UnprovedComponents(es, cs);
    }
  }

  lemma InfluenceIs(es: seq<Entry>, causal: set<string>, t: Taint)
    ensures t in InfluenceTaints(es, causal) <==> exists r :: StandsFor(r, t) && HeldIn(es, causal, r)
  {
    if r :| StandsFor(r, t) && HeldIn(es, causal, r) {
      var e :| e in es && Held(e) && e.component in causal && e.base.reason == r;
      assert Influences(e, causal) && ReasonTaint(r) == Some(t);
    }
    if t in InfluenceTaints(es, causal) {
      var e :| e in es && Influences(e, causal) && ReasonTaint(e.base.reason).value == t;
      assert StandsFor(e.base.reason, t) && HeldIn(es, causal, e.base.reason);
    }
  }

  lemma CausesStand(es: seq<Entry>, cs: seq<Candidate>)
    requires Distinct(es)
    ensures var c := CausesOf(es, cs);
      && (c.overlap != {} <==> exists e :: e in es && Overlaps(es, e))
      && (c.conflict != {} <==> exists e :: e in es && Rivals(es, e))
      && (c.mismatch != {} <==> exists e :: e in es && Disagrees(cs, e))
      && (c.cycle != {} <==> exists e :: e in es && Circles(es, cs, e))
      && (c.unproved != {} <==> exists e :: e in es && Fails(cs, e))
  {
    SomeWhere(es, Overlapping(es));
    SomeWhere(es, Conflicting(es));
    SomeWhere(es, Mismatched(cs));
    SomeWhere(es, CycleClosing(Elements(Edges(es, cs))));
    SomeUnproved(es, cs);
    SupersessionIs(es, cs);
    forall e | e in es
      ensures Conflicting(es)(e) <==> Rivals(es, e)
      ensures Mismatched(cs)(e) <==> Disagrees(cs, e)
      ensures Overlapping(es)(e) <==> Overlaps(es, e)
      ensures CycleClosing(Elements(Edges(es, cs)))(e) <==> Circles(es, cs, e)
    {
      RivalsIff(es, e);
      DisagreesIff(cs, e);
    }
  }

  /** What the causes found show. */
  predicate ShownBy(i: Input, c: Causes, t: Taint) {
    match t
    case IncompleteEnumeration => i.total > i.limit
    case EligibleUnsafeOverlap => c.overlap != {}
    case UnsafeInfluencesEligible => c.overlap != {}
    case ConflictingEligibleIntent => c.conflict != {}
    case EligibleSubjectUncertainty => c.mismatch != {}
    case EligibleReachableCycle => c.cycle != {}
    case UnprovedConformance => c.unproved != {}
    case _ => false
  }

  lemma CauseTaintsAre(i: Input, c: Causes, t: Taint)
    ensures t in CauseTaints(i, c) <==> t in i.givenTaints || ShownBy(i, c, t)
  {
  }

  lemma ShownIffShows(i: Input, es: seq<Entry>, cs: seq<Candidate>, c: Causes, t: Taint)
    requires c.overlap != {} <==> exists e :: e in es && Overlaps(es, e)
    requires c.conflict != {} <==> exists e :: e in es && Rivals(es, e)
    requires c.mismatch != {} <==> exists e :: e in es && Disagrees(cs, e)
    requires c.cycle != {} <==> exists e :: e in es && Circles(es, cs, e)
    requires c.unproved != {} <==> exists e :: e in es && Fails(cs, e)
    ensures ShownBy(i, c, t) <==> Shows(i, es, cs, t)
  {
  }

  lemma TaintIff(i: Input, es: seq<Entry>, cs: seq<Candidate>, t: Taint)
    requires Distinct(es)
    ensures t in Taints(i, es, cs) <==> Warrants(i, es, cs, Causal(es, cs), t)
  {
    InfluenceIs(es, Causal(es, cs), t);
    CauseTaintsAre(i, CausesOf(es, cs), t);
    CausesStand(es, cs);
    ShownIffShows(i, es, cs, CausesOf(es, cs), t);
  }

  lemma TaintListsAre(taints: set<Taint>, causal: set<string>)
    ensures forall t :: t in OrderBy(taints, TaintBefore) <==> t in taints
    ensures Elements(OrderBy(causal, Less)) == causal
  {
    TaintsOrder();
    OrderByLists(taints, TaintBefore);
    StringsListed(causal);
  }

  lemma TaintSourcesAre(es: seq<Entry>, causal: set<string>, x: Id)
    ensures x in SortBy(SourcesIn(es, causal), Less) <==>
      exists e :: e in es && e.component in causal && e.base.source == x
  {
    SortKeeps(SourcesIn(es, causal), Less);
    InSourcesIn(es, causal, x);
  }

  /** The lists of a plan and the sets they list. */
  lemma PlanLists(i: Input, digest: Digest)
    requires BuildSpec(i, digest).Ok?
    ensures var p := BuildSpec(i, digest).value; var es := p.entries;
      && Distinct(es)
      && p.taintReasons == OrderBy(Taints(i, es, Chosen(i)), TaintBefore)
      && p.taintComponents == OrderBy(Causal(es, Chosen(i)), Less)
      && p.taintEntries == SortBy(SourcesIn(es, Causal(es, Chosen(i))), Less)
      && ValidTaintLists(p.taintReasons, p.taintComponents, p.taintEntries)
      && (p.admissible <==> p.taintReasons == [])
  {
    var bases := PlanIsDrafted(i, digest);
    PlanAnswersCandidates(i, digest);
  }

  /** A plan lists exactly the taints it has a warrant for, in the order of their codes, and is admissible without. */
  lemma TaintsAreWarranted(i: Input, digest: Digest, t: Taint)
    requires BuildSpec(i, digest).Ok?
    ensures var p := BuildSpec(i, digest).value;
      && (t in p.taintReasons <==>
            Warrants(i, p.entries, Chosen(i), Elements(p.taintComponents), t))
      && StepsUp(p.taintReasons, TaintBefore) && (p.admissible <==> p.taintReasons == [])
  {
    var es := BuildSpec(i, digest).value.entries;
    PlanLists(i, digest);
    TaintListsAre(Taints(i, es, Chosen(i)), Causal(es, Chosen(i)));
    TaintIff(i, es, Chosen(i), t);
  }

  lemma CausalIff(i: Input, digest: Digest, id: string)
    requires BuildSpec(i, digest).Ok?
    ensures var es := BuildSpec(i, digest).value.entries;
      id in Causal(es, Chosen(i)) <==> exists e :: e in es && e.component == id && Cause(es, Chosen(i), e)
  {
    var es, cs := BuildSpec(i, digest).value.entries, Chosen(i);
    var bases := PlanIsDrafted(i, digest);
    PlanLists(i, digest);
    CausalIsComponentsOfCauses(i, bases, digest, id);
    forall e | e in es ensures IsCause(es, cs, e) <==> Cause(es, cs, e) {
      CauseIff(es, cs, e);
    }
  }

  /**
   * The components a plan taints are those of the entries that something stands against, and the sources it
   * holds back are those of all entries in these components; each listed in raw order.
   */
  lemma TaintedAreCauses(i: Input, digest: Digest, x: string)
    requires BuildSpec(i, digest).Ok?
    ensures var p := BuildSpec(i, digest).value;
      && (x in p.taintComponents <==>
            exists e :: e in p.entries && e.component == x && Cause(p.entries, Chosen(i), e))
      && (x in p.taintEntries <==>
            exists e :: e in p.entries && e.component in p.taintComponents && e.base.source == x)
      && StepsUp(p.taintComponents, Less) && StepsUp(p.taintEntries, Less)
  {
    var p := BuildSpec(i, digest).value;
    var causal := Causal(p.entries, Chosen(i));
    PlanLists(i, digest);
    TaintListsAre({}, causal);
    TaintSourcesAre(p.entries, causal, x);
    CausalIff(i, digest, x);
    assert forall id :: id in p.taintComponents <==> id in Elements(p.taintComponents);
  }

  // ----- how entries are split into components -----

  /** The first candidate of its source. */
  ghost predicate FirstOfSource(cs: seq<Candidate>, k: int) {
    0 <= k < |cs| && forall j :: 0 <= j < k ==> cs[j].source != cs[k].source
  }

  /** A candidate ties these two events: its source to its target or replacement, or as its first record says. */
  ghost predicate Ties(cs: seq<Candidate>, a: Id, b: Id) {
    || (exists c :: c in cs && c.source == a && (c.target == Some(b) || c.replacement == Some(b)))
    || exists k :: FirstOfSource(cs, k) && ((cs[k].source == a && b in cs[k].lineage) || (a, b) in cs[k].relations)
  }

  lemma {:induction false} FirstIsFound(cs: seq<Candidate>, source: Id)
    ensures FirstCandidate(cs, source).Some? ==>
      exists k :: FirstOfSource(cs, k) && FirstCandidate(cs, source) == Some(cs[k]) && cs[k].source == source
    ensures forall k :: FirstOfSource(cs, k) && cs[k].source == source ==> FirstCandidate(cs, source) == Some(cs[k])
  {
    if cs != [] && cs[0].source != source {
      FirstIsFound(cs[1..], source);
      forall k | FirstOfSource(cs, k) && cs[k].source == source ensures FirstCandidate(cs, source) == Some(cs[k]) {
        FirstOfRest(cs, k - 1);
      }
      if FirstCandidate(cs, source).Some? {
        var rest := cs[1..];
        var k :| FirstOfSource(rest, k) && FirstCandidate(cs, source) == Some(rest[k]) && rest[k].source == source;
        FirstOfRest(cs, k);
        assert FirstOfSource(cs, k + 1) && cs[k + 1] == cs[1..][k];
      }
    } else if cs != [] {
      assert FirstOfSource(cs, 0);
    }
  }

  lemma FirstOfRest(cs: seq<Candidate>, k: int)
    requires 0 <= k < |cs| - 1 && cs[0].source != cs[k + 1].source
    ensures FirstOfSource(cs[1..], k) <==> FirstOfSource(cs, k + 1)
  {
    if FirstOfSource(cs, k + 1) {
      forall j | 0 <= j < k ensures cs[1..][j].source != cs[1..][k].source {
        assert cs[1..][j] == cs[j + 1];
      }
    }
    if FirstOfSource(cs[1..], k) {
      forall j | 0 <= j < k + 1 ensures cs[j].source != cs[k + 1].source {
        if j > 0 {
          assert cs[1..][j - 1] == cs[j];
        }
      }
    }
  }

  lemma TiesAreLinks(i: Input, bases: seq<Base>, a: Id, b: Id)
    requires Drafted(i, bases)
    ensures (a, b) in Links(bases, Chosen(i)) <==> Ties(Chosen(i), a, b)
  {
    var cs := Chosen(i);
    if (a, b) in Links(bases, cs) {
      LinkIsTie(i, bases, a, b);
    }
    if c :| c in cs && c.source == a && (c.target == Some(b) || c.replacement == Some(b)) {
      var k :| 0 <= k < |cs| && cs[k] == c;
      BaseAnswers(i, bases, k);
      assert (a, b) in LinkList(bases[k], FirstCandidate(cs, a));
    }
    if k :| FirstOfSource(cs, k) && ((cs[k].source == a && b in cs[k].lineage) || (a, b) in cs[k].relations) {
      BaseAnswers(i, bases, k);
      FirstIsFound(cs, cs[k].source);
      LinkMembers(bases[k], cs[k]);
      assert (a, b) in LinkList(bases[k], FirstCandidate(cs, bases[k].source));
    }
  }

  lemma FirstHolds(cs: seq<Candidate>, m: nat) returns (k: nat)
    requires m < |cs|
    ensures FirstOfSource(cs, k) && cs[k].source == cs[m].source && FirstCandidate(cs, cs[m].source) == Some(cs[k])
  {
    k := FirstOf(cs, m);
    assert FirstOfSource(cs, k);
    FirstIsFound(cs, cs[m].source);
  }

  lemma LinkOfFirst(x: Base, c: Candidate, a: Id, b: Id)
    requires x.source == c.source && (a, b) in LinkList(x, Some(c))
    ensures || (a == x.source && (x.target == Some(b) || x.replacement == Some(b)))
      || (a == c.source && b in c.lineage) || (a, b) in c.relations
  {
    LinkMembers(x, c);
  }

  lemma LinkIsTie(i: Input, bases: seq<Base>, a: Id, b: Id)
    requires Drafted(i, bases) && (a, b) in Links(bases, Chosen(i))
    ensures Ties(Chosen(i), a, b)
  {
    var cs := Chosen(i);
    var x :| x in bases && (a, b) in LinkList(x, FirstCandidate(cs, x.source));
    var m :| 0 <= m < |bases| && bases[m] == x;
    ClassifyAllPointwise(cs);
    BaseAnswers(i, bases, m);
    var k := FirstHolds(cs, m);
    LinkOfFirst(x, cs[k], a, b);
    assert cs[m] in cs && FirstOfSource(cs, k);
  }

  /** The links among the events that the candidates of a plan mention. */
  ghost predicate AreTies(cs: seq<Candidate>, E: set<(Id, Id)>) { forall a, b :: (a, b) in E <==> Ties(cs, a, b) }

  /** The raw-ordered list of exactly the events connected to the source. */
  ghost predicate ListsConnected(E: set<(Id, Id)>, source: Id, members: seq<Id>) {
    Ascending(members, Less) && forall v :: v in members <==> Connected(E, source, v)
  }

  lemma ClusterIsConnected(V: set<Id>, E: set<(Id, Id)>, source: Id)
    requires source in V && Ends(E) <= V
    ensures ListsConnected(E, source, OrderBy(Cluster(V, E, source), Less))
  {
    StringsListed(Cluster(V, E, source));
    forall v | Connected(E, source, v) ensures v in V {
      ConnectedIsVertex(E, source, v);
    }
  }

  lemma LinksAreTies(i: Input, bases: seq<Base>)
    requires Drafted(i, bases)
    ensures AreTies(Chosen(i), Links(bases, Chosen(i)))
  {
    forall a, b ensures (a, b) in Links(bases, Chosen(i)) <==> Ties(Chosen(i), a, b) {
      TiesAreLinks(i, bases, a, b);
    }
  }

  ghost predicate HasComponent(cs: seq<Candidate>, digest: Digest, e: Entry, E: set<(Id, Id)>, members: seq<Id>) {
    AreTies(cs, E) && ListsConnected(E, e.base.source, members) && e.component == digest(members)
  }

  lemma BaseHasComponent(i: Input, bases: seq<Base>, digest: Digest, b: Base)
    requires Drafted(i, bases) && b in bases
    ensures exists E, members :: HasComponent(Chosen(i), digest, EntryOf(bases, Chosen(i), digest, b), E, members)
  {
    var cs := Chosen(i);
    var E, V := Links(bases, cs), Vertices(bases, cs);
    LinksAreTies(i, bases);
    ClusterIsConnected(V, E, b.source);
    assert HasComponent(cs, digest, EntryOf(bases, cs, digest, b), E, OrderBy(Cluster(V, E, b.source), Less));
  }

  /**
   * The component of an entry is the digest of the raw-ordered list of exactly the events that ties connect to its
   * source, in either direction and over any number of them.
   */
  lemma ComponentsAreConnected(i: Input, digest: Digest, e: Entry)
    requires BuildSpec(i, digest).Ok? && e in BuildSpec(i, digest).value.entries
    ensures exists E, members :: HasComponent(Chosen(i), digest, e, E, members)
  {
    var bases := PlanIsDrafted(i, digest);
    EntryHasBase(i, bases, digest, e);
    BaseHasComponent(i, bases, digest, e.base);
  }

  lemma ConnectedIsVertex(E: set<(Id, Id)>, a: Id, v: Id)
    requires Connected(E, a, v)
    ensures v == a || v in Ends(E)
  {
    var p :| Connects(BothWays(E), p, a, v);
    if |p| > 1 {
      assert (p[|p| - 2], p[|p| - 1]) in BothWays(E);
    }
  }
}
