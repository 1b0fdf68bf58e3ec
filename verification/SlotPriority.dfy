/**
 * Who comes first: the order of sections in both passes, written out as ranks, and what it means for the items
 * left out. And which queue lands in which output section.
 */
module SlotPriority {
  import opened Ordering
  import opened Slots
  import opened SlotTheorems

  /** Pass 1 spends slots in this order. */
  function FirstRank(s: Section): nat {
    match s
    case AcceptedFacts => 0
    case Conflicts => 1
    case Supersessions => 2
    case Observations => 3
    case ProcedureSummaries => 4
    case EvidenceSummaries => 5
    case DraftClaims => 6
    case RejectedClaims => 7
    case Erasures => 8
  }

  /** Pass 2 fills what is left in this order. */
  function LeftoverRank(s: Section): nat {
    match s
    case AcceptedFacts => 0
    case Conflicts => 1
    case Supersessions => 2
    case ProcedureSummaries => 3
    case Observations => 4
    case EvidenceSummaries => 5
    case DraftClaims => 6
    case RejectedClaims => 7
    case Erasures => 8
  }

  /** Items of the two sections share an output section: procedures are put among the evidence. */
  predicate SameShelf(s: Section, t: Section) {
    s == t || (s.ProcedureSummaries? && t.EvidenceSummaries?) || (s.EvidenceSummaries? && t.ProcedureSummaries?)
  }

  /** How many of these share the output section and the diversity key of `d`. */
  function CountLike(log: seq<Decision>, d: Decision): nat {
    if log == [] then 0
    else
      var e := log[|log| - 1];
      CountLike(log[..|log| - 1], d) + if SameShelf(e.section, d.section) && e.item.key == d.item.key then 1 else 0
  }

  /** After these were admitted, the item would break the item limit, the character limit or the cap of its key. */
  predicate Crowded(log: seq<Decision>, l: Limits, d: Decision) {
    || |log| + 1 > l.maxItems
    || LogCharacters(log) + d.item.characters > l.maxCharacters
    || CountLike(log, d) >= l.maxPerKey
  }

  lemma {:induction false} CountLikeIs(log: seq<Decision>, d: Decision)
    ensures CountLike(log, d) == CountKey(Landed(log, Target(d.section)), d.item.key)
  {
    if log != [] {
      var n := |log| - 1;
      assert log == log[..n] + [log[n]];
      CountLikeIs(log[..n], d);
      LandedGrows(log[..n], log[n], Target(d.section));
      AppendItem(Landed(log[..n], Target(d.section)), log[n].item);
    }
  }

  lemma BlockedIsCrowded(a: Alloc, l: Limits, input: Queues, s: Section, x: Item)
    requires Inv(a, l, input)
    ensures Blocked(a, l, s, x) <==> Crowded(a.admitted, l, Decision(s, x))
  {
    CountLikeIs(a.admitted, Decision(s, x));
    assert KeyOk(a, l, Target(s), x.key);
  }

  // ----- a pass in the order of a rank -----

  type Rank = Section -> nat

  /**
   * The item was left out when the first `n` were admitted and crowded it: of these, the ones this pass admitted
   * have its rank or a lower one, and whatever came after has its rank or a higher one.
   */
  predicate CrowdedBy(admitted: seq<Decision>, start: nat, n: nat, l: Limits, rank: Rank, d: Decision) {
    && start <= n <= |admitted| && Crowded(admitted[..n], l, d)
    && (forall i :: start <= i < n ==> rank(admitted[i].section) <= rank(d.section))
    && (forall i :: n <= i < |admitted| ==> rank(admitted[i].section) >= rank(d.section))
  }

  predicate LeftOutFairly(admitted: seq<Decision>, start: nat, l: Limits, rank: Rank, d: Decision) {
    exists n :: 0 <= n <= |admitted| && CrowdedBy(admitted, start, n, l, rank, d)
  }

  /** A pass that started at `base` has come to sections of rank at most `r`. */
  ghost predicate InOrder(a: Alloc, base: Alloc, l: Limits, rank: Rank, r: int) {
    && base.admitted <= a.admitted && base.rejected <= a.rejected
    && (forall i :: |base.admitted| <= i < |a.admitted| ==> rank(a.admitted[i].section) <= r)
    && (forall i, j :: |base.admitted| <= i < j < |a.admitted| ==>
          rank(a.admitted[i].section) <= rank(a.admitted[j].section))
    && (forall j :: |base.rejected| <= j < |a.rejected| ==>
          rank(a.rejected[j].section) <= r && LeftOutFairly(a.admitted, |base.admitted|, l, rank, a.rejected[j]))
  }

  lemma AdmittingIsFair(admitted: seq<Decision>, start: nat, l: Limits, rank: Rank, d: Decision, e: Decision)
    requires LeftOutFairly(admitted, start, l, rank, d) && rank(e.section) >= rank(d.section)
    ensures LeftOutFairly(admitted + [e], start, l, rank, d)
  {
    var n :| 0 <= n <= |admitted| && CrowdedBy(admitted, start, n, l, rank, d);
    assert (admitted + [e])[..n] == admitted[..n];
    assert CrowdedBy(admitted + [e], start, n, l, rank, d);
  }

  lemma OmitInOrder(a: Alloc, base: Alloc, l: Limits, rank: Rank, s: Section, x: Item)
    requires InOrder(a, base, l, rank, rank(s)) && Crowded(a.admitted, l, Decision(s, x))
    ensures InOrder(Omit(a, s, x), base, l, rank, rank(s))
  {
    assert a.admitted[..|a.admitted|] == a.admitted;
    assert CrowdedBy(a.admitted, |base.admitted|, |a.admitted|, l, rank, Decision(s, x));
  }

  lemma AdmitInOrder(a: Alloc, base: Alloc, l: Limits, rank: Rank, s: Section, x: Item)
    requires InOrder(a, base, l, rank, rank(s))
    ensures InOrder(Admit(a, s, x), base, l, rank, rank(s))
  {
    var b := Admit(a, s, x);
    forall j | |base.rejected| <= j < |b.rejected|
      ensures LeftOutFairly(b.admitted, |base.admitted|, l, rank, b.rejected[j])
    {
      AdmittingIsFair(a.admitted, |base.admitted|, l, rank, a.rejected[j], Decision(s, x));
    }
  }

  lemma DecideInOrder(a: Alloc, base: Alloc, l: Limits, input: Queues, rank: Rank, s: Section)
    requires Inv(a, l, input) && Get(a.queues, s) != [] && InOrder(a, base, l, rank, rank(s))
    ensures InOrder(Decide(a, l, s), base, l, rank, rank(s))
  {
    var x := Get(a.queues, s)[0];
    BlockedIsCrowded(a, l, input, s, x);
    if Blocked(a, l, s, x) {
      OmitInOrder(Shift(a, s), base, l, rank, s, x);
    } else {
      AdmitInOrder(Shift(a, s), base, l, rank, s, x);
    }
  }

  lemma {:induction false} TakeSlotsInOrder(
    a: Alloc, base: Alloc, l: Limits, input: Queues, rank: Rank, s: Section, cap: int, taken: nat)
    requires Inv(a, l, input) && InOrder(a, base, l, rank, rank(s))
    ensures InOrder(TakeSlots(a, l, s, cap, taken), base, l, rank, rank(s))
    decreases |Get(a.queues, s)|
  {
    if taken < cap && Get(a.queues, s) != [] {
      var b := Decide(a, l, s);
      var next := if Blocked(a, l, s, Get(a.queues, s)[0]) then taken else taken + 1;
      DecideBoth(a, base, l, input, rank, s);
      TakeSlotsInOrder(b, base, l, input, rank, s, cap, next);
    }
  }

  lemma DecideBoth(a: Alloc, base: Alloc, l: Limits, input: Queues, rank: Rank, s: Section)
    requires Inv(a, l, input) && Get(a.queues, s) != [] && InOrder(a, base, l, rank, rank(s))
    ensures Inv(Decide(a, l, s), l, input) && InOrder(Decide(a, l, s), base, l, rank, rank(s))
    ensures |Get(Decide(a, l, s).queues, s)| < |Get(a.queues, s)|
  {
    DecideKeeps(a, l, input, s);
    DecideInOrder(a, base, l, input, rank, s);
  }

  lemma {:induction false} DrainInOrder(a: Alloc, base: Alloc, l: Limits, rank: Rank, s: Section)
    requires InOrder(a, base, l, rank, rank(s)) && |a.admitted| >= l.maxItems
    ensures InOrder(Drain(a, s), base, l, rank, rank(s))
    decreases |Get(a.queues, s)|
  {
    if Get(a.queues, s) != [] {
      var x := Get(a.queues, s)[0];
      OmitInOrder(Shift(a, s), base, l, rank, s, x);
      DrainInOrder(Omit(Shift(a, s), s, x), base, l, rank, s);
    }
  }

  lemma {:induction false} FillInOrder(a: Alloc, base: Alloc, l: Limits, input: Queues, rank: Rank, s: Section)
    requires Inv(a, l, input) && InOrder(a, base, l, rank, rank(s))
    ensures InOrder(Fill(a, l, s), base, l, rank, rank(s))
    decreases |Get(a.queues, s)|
  {
    if Get(a.queues, s) != [] {
      if a.usedItems >= l.maxItems {
        DrainInOrder(a, base, l, rank, s);
      } else {
        DecideBoth(a, base, l, input, rank, s);
        FillInOrder(Decide(a, l, s), base, l, input, rank, s);
      }
    }
  }

  lemma HigherRank(a: Alloc, base: Alloc, l: Limits, rank: Rank, r: int, t: int)
    requires InOrder(a, base, l, rank, r) && r <= t
    ensures InOrder(a, base, l, rank, t)
  {
  }

  lemma {:induction false} PassOneInOrder(input: Queues, l: Limits, policy: Policy, n: nat)
    requires n <= |PASS_ONE|
    ensures InOrder(PassOne(Start(input), l, policy, PASS_ONE[..n]), Start(input), l, FirstRank, n - 1)
  {
    if n > 0 {
      var order := PASS_ONE[..n];
      assert order[..n - 1] == PASS_ONE[..n - 1] && FirstRank(PASS_ONE[n - 1]) == n - 1;
      var a := PassOne(Start(input), l, policy, PASS_ONE[..n - 1]);
      PassOneInOrder(input, l, policy, n - 1);
      StartOk(input, l);
      PassOneKeeps(Start(input), l, input, policy, PASS_ONE[..n - 1]);
      HigherRank(a, Start(input), l, FirstRank, n - 2, n - 1);
      TakeSlotsInOrder(a, Start(input), l, input, FirstRank, order[n - 1], policy(order[n - 1]), 0);
    }
  }

  lemma {:induction false} PassTwoInOrder(base: Alloc, l: Limits, input: Queues, n: nat)
    requires Inv(base, l, input) && n <= |PASS_TWO|
    ensures InOrder(PassTwo(base, l, PASS_TWO[..n]), base, l, LeftoverRank, n - 1)
  {
    if n > 0 {
      var order := PASS_TWO[..n];
      assert order[..n - 1] == PASS_TWO[..n - 1] && LeftoverRank(PASS_TWO[n - 1]) == n - 1;
      var a := PassTwo(base, l, PASS_TWO[..n - 1]);
      PassTwoInOrder(base, l, input, n - 1);
      PassTwoKeeps(base, l, input, PASS_TWO[..n - 1]);
      HigherRank(a, base, l, LeftoverRank, n - 2, n - 1);
      FillInOrder(a, base, l, input, LeftoverRank, order[n - 1]);
    }
  }

  // ----- who is left out -----

  /** Where things stand after pass 1. */
  function AfterSlots(input: Queues, l: Limits, policy: Policy): Alloc { PassOne(Start(input), l, policy, PASS_ONE) }

  /**
   * No leftover displaces one of higher priority: an item that pass 2 leaves out was crowded out by what pass 1
   * admitted and by leftovers of sections that come before its own or are its own; all that is admitted after
   * it comes from its own section or a later one. And leftovers are admitted in the order of their sections.
   */
  lemma LeftoversWaitTheirTurn(input: Queues, l: Limits, policy: Policy)
    ensures var p, a := AfterSlots(input, l, policy), Allocate(input, l, policy);
      && p.admitted <= a.admitted && p.rejected <= a.rejected
      && (forall i, j :: |p.admitted| <= i < j < |a.admitted| ==>
            LeftoverRank(a.admitted[i].section) <= LeftoverRank(a.admitted[j].section))
      && (forall j :: |p.rejected| <= j < |a.rejected| ==>
            LeftOutFairly(a.admitted, |p.admitted|, l, LeftoverRank, a.rejected[j]))
  {
    StartOk(input, l);
    PassOneKeeps(Start(input), l, input, policy, PASS_ONE);
    PassTwoInOrder(AfterSlots(input, l, policy), l, input, |PASS_TWO|);
    assert PASS_TWO[..|PASS_TWO|] == PASS_TWO;
  }

  /** The same of the slots in pass 1, in its own order. */
  lemma SlotsAreSpentInOrder(input: Queues, l: Limits, policy: Policy)
    ensures var p := AfterSlots(input, l, policy);
      && (forall i, j :: 0 <= i < j < |p.admitted| ==>
            FirstRank(p.admitted[i].section) <= FirstRank(p.admitted[j].section))
      && (forall j :: 0 <= j < |p.rejected| ==> LeftOutFairly(p.admitted, 0, l, FirstRank, p.rejected[j]))
  {
    PassOneInOrder(input, l, policy, |PASS_ONE|);
    assert PASS_ONE[..|PASS_ONE|] == PASS_ONE;
  }

  // ----- how much pass 1 spends -----

  /** `b` came from `a` by deciding items of queue `s`, of which at most `cap` were admitted, or all were decided. */
  predicate Spends(a: Alloc, b: Alloc, s: Section, cap: nat) {
    && (forall r :: r != s ==> From(b.admitted, r) == From(a.admitted, r) && Get(b.queues, r) == Get(a.queues, r))
    && |From(b.admitted, s)| <= |From(a.admitted, s)| + cap
    && (|From(b.admitted, s)| < |From(a.admitted, s)| + cap ==> Get(b.queues, s) == [])
  }

  lemma DecideLeaves(a: Alloc, l: Limits, s: Section, r: Section)
    requires Get(a.queues, s) != [] && r != s
    ensures From(Decide(a, l, s).admitted, r) == From(a.admitted, r)
    ensures Get(Decide(a, l, s).queues, r) == Get(a.queues, r)
  {
    FromGrows(a.admitted, Decision(s, Get(a.queues, s)[0]), r);
  }

  lemma DecideCounts(a: Alloc, l: Limits, s: Section)
    requires Get(a.queues, s) != []
    ensures |From(Decide(a, l, s).admitted, s)|
      == |From(a.admitted, s)| + if Blocked(a, l, s, Get(a.queues, s)[0]) then 0 else 1
  {
    FromGrows(a.admitted, Decision(s, Get(a.queues, s)[0]), s);
  }

  lemma {:induction false} TakeSlotsSpends(a: Alloc, l: Limits, s: Section, cap: int, taken: nat)
    ensures Spends(a, TakeSlots(a, l, s, cap, taken), s, Max(0, cap - taken))
    decreases |Get(a.queues, s)|
  {
    if taken < cap && Get(a.queues, s) != [] {
      var fits := !Blocked(a, l, s, Get(a.queues, s)[0]);
      DecideCounts(a, l, s);
      forall r | r != s
        ensures From(Decide(a, l, s).admitted, r) == From(a.admitted, r)
        ensures Get(Decide(a, l, s).queues, r) == Get(a.queues, r)
      {
        DecideLeaves(a, l, s, r);
      }
      TakeSlotsSpends(Decide(a, l, s), l, s, cap, if fits then taken + 1 else taken);
    }
  }

  lemma {:induction false} PassOneSpends(input: Queues, l: Limits, policy: Policy, order: seq<Section>, s: Section)
    requires Distinct(order)
    ensures var p := PassOne(Start(input), l, policy, order);
      if s in order then
        && |From(p.admitted, s)| <= Max(0, policy(s))
        && (|From(p.admitted, s)| < Max(0, policy(s)) ==> Get(p.queues, s) == [])
      else From(p.admitted, s) == [] && Get(p.queues, s) == Get(input, s)
  {
    if order != [] {
      var n := |order| - 1;
      assert order == order[..n] + [order[n]];
      PassOneSpends(input, l, policy, order[..n], s);
      TakeSlotsSpends(PassOne(Start(input), l, policy, order[..n]), l, order[n], policy(order[n]), 0);
    }
  }

  /** Pass 1 admits from each queue as many items as it has slots, or decides the whole queue. */
  lemma SlotsAreSpent(input: Queues, l: Limits, policy: Policy, s: Section)
    ensures var p := AfterSlots(input, l, policy);
      && |From(p.admitted, s)| <= Max(0, policy(s))
      && (|From(p.admitted, s)| < Max(0, policy(s)) ==> Get(p.queues, s) == [])
  {
    EverySectionIsListed(s);
    SectionsDiffer();
    PassOneSpends(input, l, policy, PASS_ONE, s);
  }

  lemma SectionsDiffer()
    ensures Distinct(PASS_ONE)
  {
  }

  // ----- where items land -----

  lemma {:induction false} LandedIs(log: seq<Decision>, t: Section)
    ensures t.ProcedureSummaries? ==> Landed(log, t) == []
    ensures !t.ProcedureSummaries? && !t.EvidenceSummaries? ==> Landed(log, t) == From(log, t)
    ensures t.EvidenceSummaries? ==>
      Shuffle(From(log, ProcedureSummaries), From(log, EvidenceSummaries), Landed(log, t))
  {
    if log != [] {
      var n := |log| - 1;
      LandedIs(log[..n], t);
      if t.EvidenceSummaries? {
        ShuffleGrows(From(log[..n], ProcedureSummaries), From(log[..n], EvidenceSummaries),
                     Landed(log[..n], t), log[n].item);
      }
    }
  }

  /**
   * Each output section holds the admitted items of its own queue in input order, and none but these; except that
   * the evidence also holds the admitted procedures, each of the two in its order.
   */
  lemma OutputSectionsAre(input: Queues, l: Limits, policy: Policy, t: Section)
    ensures var a := Allocate(input, l, policy);
      && (t.ProcedureSummaries? ==> Get(a.output, t) == [])
      && (!t.ProcedureSummaries? && !t.EvidenceSummaries? ==> Get(a.output, t) == From(a.admitted, t))
      && (t.EvidenceSummaries? ==>
            Shuffle(From(a.admitted, ProcedureSummaries), From(a.admitted, EvidenceSummaries), Get(a.output, t)))
  {
    InputOrderIsKept(input, l, policy, t);
    LandedIs(Allocate(input, l, policy).admitted, t);
  }
}
