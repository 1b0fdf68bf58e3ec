/**
 * What a built plan says about its candidates: which candidates it takes, what it does with each, what it
 * refuses, and what it counts. Nothing here goes through the classifier or the builder's own lists.
 */
module PlanContents {
  import opened Wrappers
  import opened Ordering
  import opened Text
  import opened ReconciliationModel
  import opened Partition
  import opened PlanSpec
  import opened PlanTheorems

  // ----- what a candidate asks for -----

  predicate IdsAreEvents(c: Candidate) {
    && IsEventId(c.source)
    && (c.target.Some? ==> IsEventId(c.target.value))
    && (c.replacement.Some? ==> IsEventId(c.replacement.value))
  }

  /** Replace one event by another, neither of them the source. */
  predicate AsksReplace(c: Candidate) {
    && c.classification == Some(ClassReplace) && c.target.Some? && c.replacement.Some?
    && c.target.value != c.source && c.replacement.value != c.source && c.target.value != c.replacement.value
  }

  /** Invalidate another event, with no replacement. */
  predicate AsksInvalidate(c: Candidate) {
    c.classification == Some(ClassInvalidate) && c.target.Some? && c.replacement.None? && c.target.value != c.source
  }

  /** The intent is in effect already. */
  predicate SaysApplied(c: Candidate) {
    && c.classification == Some(ClassAlreadyApplied) && c.target.Some? && c.target.value != c.source
    && (c.replacement.Some? ==> c.replacement.value != c.source)
  }

  predicate AsksSomething(c: Candidate) { AsksReplace(c) || AsksInvalidate(c) || SaysApplied(c) }

  predicate ReasonIsGiven(c: Candidate, r: Reason) {
    c.unsafeReason == Some(r) || (c.unsafeReason.None? && r.MissingUnsafe?)
  }

  predicate NamesItself(c: Candidate) { c.target == Some(c.source) || c.replacement == Some(c.source) }

  /** What is wrong with a candidate on its own. */
  predicate Complaint(c: Candidate, e: BuildError) {
    if !IdsAreEvents(c) then e.InvalidIdentifier?
    else if AsksSomething(c) then false
    else if c.unsafeReason in {Some(Replace), Some(Invalidate), Some(AlreadyApplied)} then e.InvalidUnsafeReason?
    else NamesItself(c) && !ReasonIsGiven(c, SelfUnsafe) && e.SelfRelationRequiresSelfUnsafe?
  }

  /** The entry does what the candidate asks for, and nothing when it asks for nothing. */
  predicate Answers(b: Base, c: Candidate) {
    && b.source == c.source && b.target == c.target && b.replacement == c.replacement
    && (b.action.DoReplace? <==> AsksReplace(c))
    && (b.action.DoInvalidate? <==> AsksInvalidate(c))
    && (b.action.DoAlreadyApplied? <==> SaysApplied(c))
    && (b.bucket.EligibleWrite? <==> AsksReplace(c) || AsksInvalidate(c))
    && (b.bucket.EligibleNoop? <==> SaysApplied(c))
    && (AsksReplace(c) ==> b.reason.Replace?)
    && (AsksInvalidate(c) ==> b.reason.Invalidate?)
    && (SaysApplied(c) ==> b.reason.AlreadyApplied?)
    && (!AsksSomething(c) ==> ReasonIsGiven(c, b.reason))
  }

  lemma ClassifyAnswers(c: Candidate)
    ensures Classify(c).Ok? ==> Answers(Classify(c).value, c) && forall e :: !Complaint(c, e)
    ensures Classify(c).Err? ==> Complaint(c, Classify(c).error)
  {
  }

  lemma AnswersAgree(a: Base, b: Base, c: Candidate)
    requires Answers(a, c) && Answers(b, c)
    ensures a == b
  {
  }

  // ----- which candidates a plan takes -----

  /** Raw order by source, then by policy version, a missing version first. */
  predicate Earlier(a: Candidate, b: Candidate) {
    Less(a.source, b.source) || (a.source == b.source && Less(OrEmpty(a.policyVersion), OrEmpty(b.policyVersion)))
  }

  ghost predicate LeavesOut(i: Input, rest: seq<Candidate>) {
    && multiset(Chosen(i)) + multiset(rest) == multiset(i.candidates)
    && forall x, y :: x in Chosen(i) && y in rest ==> !Earlier(y, x)
  }

  lemma SortedSplits(first: seq<Candidate>, rest: seq<Candidate>)
    requires NonDescending(first + rest, CandidateBefore)
    ensures forall x, y :: x in first && y in rest ==> !Earlier(y, x)
  {
    forall x, y | x in first && y in rest ensures !Earlier(y, x) {
      var j :| 0 <= j < |first| && first[j] == x;
      var k :| 0 <= k < |rest| && rest[k] == y;
      assert (first + rest)[|first| + k] == y && (first + rest)[j] == x;
      assert !CandidateBefore((first + rest)[|first| + k], (first + rest)[j]);
    }
  }

  lemma SortedCandidates(i: Input)
    requires InputError(i).None?
    ensures var all := SortBy(i.candidates, CandidateBefore);
      && multiset(all) == multiset(i.candidates) && NonDescending(all, CandidateBefore)
      && 0 <= Expected(i) <= |all| && Chosen(i) == all[..Expected(i)]
  {
    SortKeeps(i.candidates, CandidateBefore);
    CandidatesOrder();
    SortOrders(i.candidates, CandidateBefore);
  }

  lemma SplitsAt(all: seq<Candidate>, n: nat)
    requires n <= |all|
    ensures all[..n] + all[n..] == all && multiset(all[..n]) + multiset(all[n..]) == multiset(all)
  {
    assert all[..n] + all[n..] == all;
  }

  /**
   * A plan takes as many candidates as the total and the limit allow, in raw order of source and policy version,
   * and what it leaves out is not earlier than anything it takes.
   */
  lemma ChosenAreFirst(i: Input)
    requires InputError(i).None?
    ensures |Chosen(i)| == Min(i.total, i.limit)
    ensures forall j, k :: 0 <= j < k < |Chosen(i)| ==> !Earlier(Chosen(i)[k], Chosen(i)[j])
    ensures exists rest :: LeavesOut(i, rest)
  {
    var all, n := SortBy(i.candidates, CandidateBefore), Expected(i);
    SortedCandidates(i);
    SplitsAt(all, n);
    SortedSplits(all[..n], all[n..]);
    assert LeavesOut(i, all[n..]);
    forall j, k | 0 <= j < k < |Chosen(i)| ensures !Earlier(Chosen(i)[k], Chosen(i)[j]) {
      assert !CandidateBefore(all[k], all[j]);
    }
  }

  // ----- what a plan does with each -----

  /** The builder got as far as a plan. */
  lemma PlanIsDrafted(i: Input, digest: Digest) returns (bases: seq<Base>)
    requires BuildSpec(i, digest).Ok?
    ensures Drafted(i, bases) && BuildSpec(i, digest) == Ok(Draft(i, bases, digest))
    ensures ValidPlan(Draft(i, bases, digest))
  {
    bases := ClassifyAll(Chosen(i)).value;
  }

  lemma BaseAnswers(i: Input, bases: seq<Base>, k: nat)
    requires Drafted(i, bases) && k < |Chosen(i)|
    ensures |bases| == |Chosen(i)| && Answers(bases[k], Chosen(i)[k])
  {
    ClassifyAllPointwise(Chosen(i));
    ClassifyAnswers(Chosen(i)[k]);
  }

  /** Some entry of the plan answers this candidate. */
  ghost predicate Answered(p: Plan, c: Candidate) { exists e :: e in p.entries && Answers(e.base, c) }

  /** This entry answers some candidate the plan takes. */
  ghost predicate Asked(i: Input, e: Entry) { exists c :: c in Chosen(i) && Answers(e.base, c) }

  lemma CandidateIsAnswered(i: Input, bases: seq<Base>, digest: Digest, k: nat)
    requires Drafted(i, bases) && k < |Chosen(i)|
    ensures exists e :: e in EntriesOf(bases, Chosen(i), digest) && Answers(e.base, Chosen(i)[k])
  {
    BaseAnswers(i, bases, k);
    BaseHasEntry(i, bases, digest, bases[k]);
  }

  lemma EntryIsAsked(i: Input, bases: seq<Base>, digest: Digest, e: Entry)
    requires Drafted(i, bases) && e in EntriesOf(bases, Chosen(i), digest)
    ensures Asked(i, e)
  {
    var k := EntryIsAttached(bases, Chosen(i), digest, e);
    DraftLengths(i, bases, digest);
    BaseAnswers(i, bases, k);
    assert Chosen(i)[k] in Chosen(i);
  }

  lemma ChosenAreAnswered(i: Input, bases: seq<Base>, digest: Digest)
    requires Drafted(i, bases)
    ensures forall c :: c in Chosen(i) ==> Answered(Draft(i, bases, digest), c)
    ensures forall e :: e in Draft(i, bases, digest).entries ==> Asked(i, e)
  {
    var cs := Chosen(i);
    forall c | c in cs ensures Answered(Draft(i, bases, digest), c) {
      var k :| 0 <= k < |cs| && cs[k] == c;
      CandidateIsAnswered(i, bases, digest, k);
    }
    forall e | e in Draft(i, bases, digest).entries ensures Asked(i, e) {
      EntryIsAsked(i, bases, digest, e);
    }
  }

  lemma BasesDiffer(bases: seq<Base>, cs: seq<Candidate>, digest: Digest)
    requires Distinct(EntriesOf(bases, cs, digest))
    ensures Distinct(bases)
  {
    var attached := Attach(bases, cs, digest);
    SortIsDistinct(attached, EntryBefore);
    forall j, k | 0 <= j < k < |bases| ensures bases[j] != bases[k] {
      assert attached[j] != attached[k];
    }
  }

  lemma AnswersOnlyOne(i: Input, bases: seq<Base>, b: Base, j: nat, k: nat)
    requires Drafted(i, bases) && Distinct(bases) && j < k < |Chosen(i)| && Answers(b, Chosen(i)[j])
    ensures !Answers(b, Chosen(i)[k])
  {
    BaseAnswers(i, bases, j);
    BaseAnswers(i, bases, k);
    AnswersAgree(b, bases[j], Chosen(i)[j]);
    assert bases[j] != bases[k];
    if Answers(b, Chosen(i)[k]) {
      AnswersAgree(b, bases[k], Chosen(i)[k]);
    }
  }

  /**
   * A plan answers every candidate it takes with one entry, and has no other entry: it replaces, invalidates or
   * notes as applied exactly what a candidate asks for, and leaves the rest unchanged for the reason given.
   */
  lemma PlanAnswersCandidates(i: Input, digest: Digest)
    requires BuildSpec(i, digest).Ok?
    ensures var p := BuildSpec(i, digest).value;
      && |p.entries| == |Chosen(i)| && Distinct(p.entries)
      && (forall c :: c in Chosen(i) ==> Answered(p, c))
      && (forall e :: e in p.entries ==> Asked(i, e))
      && forall j, k, b :: 0 <= j < k < |Chosen(i)| && Answers(b, Chosen(i)[j]) ==> !Answers(b, Chosen(i)[k])
  {
    var bases := PlanIsDrafted(i, digest);
    var p := Draft(i, bases, digest);
    DraftLengths(i, bases, digest);
    EntriesOrder();
    SteppingAscends(p.entries, EntryBefore);
    AscendingIsDistinct(p.entries, EntryBefore);
    ChosenAreAnswered(i, bases, digest);
    BasesDiffer(bases, Chosen(i), digest);
    forall j, k, b | 0 <= j < k < |Chosen(i)| && Answers(b, Chosen(i)[j]) ensures !Answers(b, Chosen(i)[k]) {
      AnswersOnlyOne(i, bases, b, j, k);
    }
  }

  // ----- what it refuses -----

  /** The first candidate taken with something wrong, if any. */
  ghost predicate FirstComplaint(cs: seq<Candidate>, k: nat, e: BuildError) {
    k < |cs| && Complaint(cs[k], e) && forall j, f :: 0 <= j < k ==> !Complaint(cs[j], f)
  }

  lemma {:induction false} FailsAtFirst(cs: seq<Candidate>, k: nat, e: BuildError)
    requires FirstComplaint(cs, k, e)
    ensures ClassifyAll(cs) == Err(e)
  {
    ClassifyAnswers(cs[0]);
    if k > 0 {
      assert !Complaint(cs[0], e);
      forall j, f | 0 <= j < k - 1 ensures !Complaint(cs[1..][j], f) {
        assert !Complaint(cs[j + 1], f);
      }
      FailsAtFirst(cs[1..], k - 1, e);
    } else {
      ComplaintsAgree(cs[0], e);
    }
  }

  lemma ComplaintsAgree(c: Candidate, e: BuildError)
    requires Complaint(c, e)
    ensures Classify(c) == Err(e)
  {
    ClassifyAnswers(c);
  }

  /** The first candidate taken of a source mentions an id that is none of an event. */
  ghost predicate MentionsBadly(cs: seq<Candidate>, k: nat) {
    && k < |cs| && (forall j :: 0 <= j < k ==> cs[j].source != cs[k].source)
    && ((exists id :: id in cs[k].lineage && !IsEventId(id))
        || exists r :: r in cs[k].relations && !(IsEventId(r.0) && IsEventId(r.1)))
  }

  lemma {:induction false} FirstIs(cs: seq<Candidate>, k: nat)
    requires k < |cs| && forall j :: 0 <= j < k ==> cs[j].source != cs[k].source
    ensures FirstCandidate(cs, cs[k].source) == Some(cs[k])
  {
    if k > 0 {
      assert cs[0].source != cs[k].source && cs[1..][k - 1] == cs[k];
      forall j | 0 <= j < k - 1 ensures cs[1..][j].source != cs[k].source {
        assert cs[j + 1].source != cs[k].source;
      }
      FirstIs(cs[1..], k - 1);
    }
  }

  lemma {:induction false} FirstOf(cs: seq<Candidate>, m: nat) returns (k: nat)
    requires m < |cs|
    ensures k <= m && cs[k].source == cs[m].source && forall j :: 0 <= j < k ==> cs[j].source != cs[k].source
  {
    if j :| 0 <= j < m && cs[j].source == cs[m].source {
      k := FirstOf(cs, j);
    } else {
      k := m;
    }
  }

  lemma MentionableIff(i: Input, bases: seq<Base>)
    requires ClassifyAll(Chosen(i)) == Ok(bases)
    ensures Mentionable(bases, Chosen(i)) <==> forall k :: !MentionsBadly(Chosen(i), k)
  {
    var cs := Chosen(i);
    ClassifyAllPointwise(cs);
    forall k: nat | k < |cs| ensures bases[k].source == cs[k].source {
      ClassifyAnswers(cs[k]);
    }
    if Mentionable(bases, cs) {
      forall k: nat ensures !MentionsBadly(cs, k) {
        if MentionsBadly(cs, k) {
          assert bases[k] in bases;
          FirstIs(cs, k);
          MentionsMembers(cs[k]);
        }
      }
    } else {
      var b :| b in bases && !MentionsEvents(FirstCandidate(cs, b.source));
      var m :| 0 <= m < |bases| && bases[m] == b;
      var k := FirstOf(cs, m);
      FirstIs(cs, k);
      MentionsMembers(cs[k]);
      assert MentionsBadly(cs, k);
    }
  }

  /**
   * How building fails after the checks of its input: with the complaint about the first candidate that has one,
   * else on a malformed id in a lineage or relation, else only by rejecting its own draft.
   */
  lemma BuildFailsWith(i: Input, digest: Digest)
    requires InputError(i).None?
    ensures forall k, e :: FirstComplaint(Chosen(i), k, e) ==> BuildSpec(i, digest) == Err(e)
    ensures (forall c, e :: c in Chosen(i) ==> !Complaint(c, e)) ==>
      if exists k :: MentionsBadly(Chosen(i), k) then BuildSpec(i, digest) == Err(InvalidIdentifier)
      else BuildSpec(i, digest).Ok? || BuildSpec(i, digest) == Err(PlanRejected)
  {
    var cs := Chosen(i);
    forall k, e | FirstComplaint(cs, k, e) ensures BuildSpec(i, digest) == Err(e) {
      FailsAtFirst(cs, k, e);
    }
    if forall c, e :: c in cs ==> !Complaint(c, e) {
      ClassifyAllPointwise(cs);
      forall k | 0 <= k < |cs| ensures Classify(cs[k]).Ok? {
        ClassifyAnswers(cs[k]);
        assert cs[k] in cs;
      }
      MentionableIff(i, ClassifyAll(cs).value);
    }
  }
}
