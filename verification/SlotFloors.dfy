/** When the slots of pass 1 are floors: each queue gets its slots, or all it has, for every input that fits. */
module SlotFloors {
  import opened Ordering
  import opened Slots
  import opened SlotTheorems

  /** The slots of one queue; a negative number gives none. */
  function SlotsOf(policy: Policy, s: Section): nat { Max(0, policy(s)) }

  /** The slots whose items land in output section `t`. */
  function SlotsInto(policy: Policy, order: seq<Section>, t: Section): nat {
    if order == [] then 0
    else
      var s := order[|order| - 1];
      SlotsInto(policy, order[..|order| - 1], t) + (if Target(s) == t then SlotsOf(policy, s) else 0)
  }

  function Floor(policy: Policy, input: Queues, s: Section): nat { Min(SlotsOf(policy, s), |Get(input, s)|) }

  /** The first items of a queue, up to its slots. */
  function Favoured(policy: Policy, input: Queues, s: Section): seq<Item> { Get(input, s)[..Floor(policy, input, s)] }

  function TotalFloors(policy: Policy, input: Queues, order: seq<Section>): nat {
    if order == [] then 0
    else TotalFloors(policy, input, order[..|order| - 1]) + Floor(policy, input, order[|order| - 1])
  }

  function FloorCharacters(policy: Policy, input: Queues, order: seq<Section>): nat {
    if order == [] then 0
    else
      FloorCharacters(policy, input, order[..|order| - 1]) + Characters(Favoured(policy, input, order[|order| - 1]))
  }

  /** The section got its slots, or everything it had. */
  predicate FloorMet(policy: Policy, input: Queues, l: Limits, s: Section) {
    |From(Allocate(input, l, policy).admitted, s)| >= Floor(policy, input, s)
  }

  /** There is room for the items that the slots are for, and for their text. */
  predicate Fits(policy: Policy, input: Queues, l: Limits) {
    && TotalFloors(policy, input, PASS_ONE) <= l.maxItems
    && FloorCharacters(policy, input, PASS_ONE) <= l.maxCharacters
  }

  /** The diversity cap covers the slots of every output section. */
  predicate CapCoversSlots(policy: Policy, perKey: int) {
    forall t :: SlotsInto(policy, PASS_ONE, t) <= Max(0, perKey)
  }

  // ----- nothing is blocked while there is room -----

  lemma {:induction false} CharactersAdd(x: seq<Item>, y: seq<Item>)
    ensures Characters(x + y) == Characters(x) + Characters(y)
  {
    if y == [] {
      assert x + y == x;
    } else {
      var n := |y| - 1;
      assert x + y == (x + y[..n]) + [y[n]] && y == y[..n] + [y[n]];
      CharactersAdd(x, y[..n]);
      AppendItem(x + y[..n], y[n]);
    }
  }

  lemma QueueCharacters(a: Alloc, input: Queues, s: Section)
    requires QueueOk(a, input, s)
    ensures Characters(Get(input, s))
      == Characters(From(a.admitted, s)) + Characters(From(a.rejected, s)) + Characters(Get(a.queues, s))
  {
    var k := |Get(input, s)| - |Get(a.queues, s)|;
    ShuffleTotals(From(a.admitted, s), From(a.rejected, s), Get(input, s)[..k]);
    assert Get(input, s) == Get(input, s)[..k] + Get(a.queues, s);
    CharactersAdd(Get(input, s)[..k], Get(a.queues, s));
  }

  /** At every point, characters decided and characters still queued make up the input. */
  lemma CharactersAreConserved(a: Alloc, l: Limits, input: Queues)
    requires Inv(a, l, input)
    ensures Weight(input) == a.usedCharacters + a.omittedCharacters + Weight(a.queues)
  {
    var decided: Section -> nat := s => Characters(From(a.admitted, s)) + Characters(From(a.rejected, s));
    forall s ensures Weights(input)(s) == decided(s) + Weights(a.queues)(s) {
      assert QueueOk(a, input, s);
      QueueCharacters(a, input, s);
    }
    TotalAdds(decided, Weights(a.queues), Weights(input));
    TotalAdds(FromWeights(a.admitted), FromWeights(a.rejected), decided);
    LogTotals(a.admitted);
    LogTotals(a.rejected);
  }

  /** Room for the next `n` items of this queue. */
  predicate RoomFor(a: Alloc, l: Limits, s: Section, n: nat)
    requires n <= |Get(a.queues, s)|
  {
    && a.usedItems + n <= l.maxItems
    && a.usedCharacters + Characters(Get(a.queues, s)[..n]) <= l.maxCharacters
    && |Landed(a.admitted, Target(s))| + n <= l.maxPerKey
  }

  lemma RoomMeansUnblocked(a: Alloc, l: Limits, input: Queues, s: Section, n: nat)
    requires Inv(a, l, input) && 0 < n <= |Get(a.queues, s)| && RoomFor(a, l, s, n)
    ensures !Blocked(a, l, s, Get(a.queues, s)[0])
  {
    var x := Get(a.queues, s)[0];
    HeadCharacters(Get(a.queues, s)[..n]);
    assert KeyOk(a, l, Target(s), x.key);
    CountWithin(Landed(a.admitted, Target(s)), x.key);
  }

  /** `b` came from `a` by admitting the first `k` items of queue `s`. */
  predicate Took(a: Alloc, b: Alloc, s: Section, k: nat) {
    && k <= |Get(a.queues, s)|
    && b.usedItems == a.usedItems + k
    && b.usedCharacters == a.usedCharacters + Characters(Get(a.queues, s)[..k])
    && (forall r :: Get(b.queues, r) == if r == s then Get(a.queues, s)[k..] else Get(a.queues, r))
    && (forall r :: From(b.admitted, r) ==
          if r == s then From(a.admitted, s) + Get(a.queues, s)[..k] else From(a.admitted, r))
    && (forall t :: |Landed(b.admitted, t)| == |Landed(a.admitted, t)| + if t == Target(s) then k else 0)
  }

  lemma TakeOne(a: Alloc, l: Limits, s: Section)
    requires Get(a.queues, s) != [] && !Blocked(a, l, s, Get(a.queues, s)[0])
    ensures Took(a, Decide(a, l, s), s, 1)
  {
    var x := Get(a.queues, s)[0];
    AppendItem([], x);
    assert [] + [x] == Get(a.queues, s)[..1];
    forall r ensures From(a.admitted + [Decision(s, x)], r)
      == if r == s then From(a.admitted, s) + Get(a.queues, s)[..1] else From(a.admitted, r)
    {
      FromGrows(a.admitted, Decision(s, x), r);
    }
    forall t ensures |Landed(a.admitted + [Decision(s, x)], t)|
      == |Landed(a.admitted, t)| + if t == Target(s) then 1 else 0
    {
      LandedGrows(a.admitted, Decision(s, x), t);
    }
  }

  lemma FirstThenNext(q: seq<Item>, k: nat)
    requires k < |q|
    ensures q[1..][k..] == q[k + 1..] && q[..1] + q[1..][..k] == q[..k + 1]
    ensures Characters(q[..k + 1]) == Characters(q[..1]) + Characters(q[1..][..k])
  {
    assert q[..1] + q[1..][..k] == q[..k + 1];
    CharactersAdd(q[..1], q[1..][..k]);
  }

  lemma TookThenTook(a: Alloc, b: Alloc, c: Alloc, s: Section, k: nat)
    requires Took(a, b, s, 1) && Took(b, c, s, k)
    ensures Took(a, c, s, k + 1)
  {
    var q, x := Get(a.queues, s), From(a.admitted, s);
    assert Get(b.queues, s) == q[1..];
    FirstThenNext(q, k);
    forall r ensures From(c.admitted, r) == if r == s then x + q[..k + 1] else From(a.admitted, r) {
      assert From(b.admitted, r) == if r == s then x + q[..1] else From(a.admitted, r);
      assert (x + q[..1]) + q[1..][..k] == x + (q[..1] + q[1..][..k]);
    }
    forall t ensures |Landed(c.admitted, t)| == |Landed(a.admitted, t)| + if t == Target(s) then k + 1 else 0 {
      assert |Landed(b.admitted, t)| == |Landed(a.admitted, t)| + if t == Target(s) then 1 else 0;
    }
  }

  lemma TookNone(a: Alloc, s: Section)
    ensures Took(a, a, s, 0)
  {
    assert Get(a.queues, s)[0..] == Get(a.queues, s);
    assert From(a.admitted, s) + Get(a.queues, s)[..0] == From(a.admitted, s);
  }

  lemma TakeOneOfRoom(a: Alloc, l: Limits, input: Queues, s: Section, n: nat)
    requires Inv(a, l, input) && 0 < n <= |Get(a.queues, s)| && RoomFor(a, l, s, n)
    ensures !Blocked(a, l, s, Get(a.queues, s)[0])
    ensures Inv(Decide(a, l, s), l, input) && Took(a, Decide(a, l, s), s, 1)
    ensures n - 1 <= |Get(Decide(a, l, s).queues, s)| && RoomFor(Decide(a, l, s), l, s, n - 1)
  {
    var q := Get(a.queues, s);
    RoomMeansUnblocked(a, l, input, s, n);
    TakeOne(a, l, s);
    DecideKeeps(a, l, input, s);
    CharactersAdd(q[..1], q[1..n]);
    assert q[..1] + q[1..n] == q[..n] && q[1..][..n - 1] == q[1..n];
  }

  /** With room for the items its slots are for, pass 1 takes the first items of a queue and omits none. */
  lemma {:induction false} TakeSlotsAdmits(a: Alloc, l: Limits, input: Queues, s: Section, cap: int, taken: nat)
    requires Inv(a, l, input)
    requires var n := Min(Max(0, cap - taken), |Get(a.queues, s)|); n > 0 ==> RoomFor(a, l, s, n)
    ensures Took(a, TakeSlots(a, l, s, cap, taken), s, Min(Max(0, cap - taken), |Get(a.queues, s)|))
    decreases |Get(a.queues, s)|
  {
    if taken >= cap || Get(a.queues, s) == [] {
      TookNone(a, s);
    } else {
      var b := Decide(a, l, s);
      TakeOneOfRoom(a, l, input, s, Min(cap - taken, |Get(a.queues, s)|));
      TookOneLess(a, b, s);
      TakeSlotsAdmits(b, l, input, s, cap, taken + 1);
      TakeSlotsGoesOn(a, l, s, cap, taken);
      var k := Min(Max(0, cap - taken - 1), |Get(b.queues, s)|);
      TookThenTook(a, b, TakeSlots(b, l, s, cap, taken + 1), s, k);
      assert k + 1 == Min(Max(0, cap - taken), |Get(a.queues, s)|);
    }
  }

  lemma TakeSlotsGoesOn(a: Alloc, l: Limits, s: Section, cap: int, taken: nat)
    requires taken < cap && Get(a.queues, s) != [] && !Blocked(a, l, s, Get(a.queues, s)[0])
    ensures TakeSlots(a, l, s, cap, taken) == TakeSlots(Decide(a, l, s), l, s, cap, taken + 1)
  {
  }

  lemma TookOneLess(a: Alloc, b: Alloc, s: Section)
    requires Took(a, b, s, 1)
    ensures |Get(b.queues, s)| == |Get(a.queues, s)| - 1
  {
    assert Get(b.queues, s) == Get(a.queues, s)[1..];
  }

  // ----- pass 1 gives every queue its slots -----

  /** Pass 1 has served the queues of `order`, each with its slots, and left the others alone. */
  predicate Served(a: Alloc, policy: Policy, input: Queues, order: seq<Section>) {
    && a.usedItems == TotalFloors(policy, input, order)
    && a.usedCharacters == FloorCharacters(policy, input, order)
    && (forall t :: |Landed(a.admitted, t)| <= SlotsInto(policy, order, t))
    && (forall s :: s in order ==> From(a.admitted, s) == Favoured(policy, input, s))
    && (forall s :: s !in order ==> From(a.admitted, s) == [] && Get(a.queues, s) == Get(input, s))
  }

  lemma ServeOne(a: Alloc, b: Alloc, policy: Policy, input: Queues, order: seq<Section>, s: Section)
    requires Served(a, policy, input, order) && s !in order
    requires Took(a, b, s, Floor(policy, input, s))
    ensures Served(b, policy, input, order + [s])
  {
    var longer := order + [s];
    assert longer[..|order|] == order && longer[|order|] == s;
    assert [] + Favoured(policy, input, s) == Favoured(policy, input, s);
    forall t ensures |Landed(b.admitted, t)| <= SlotsInto(policy, longer, t) {
      assert |Landed(a.admitted, t)| <= SlotsInto(policy, order, t);
    }
    forall r ensures r in longer <==> r in order || r == s {
    }
  }

  lemma {:induction false} PassOneServes(input: Queues, l: Limits, policy: Policy, order: seq<Section>)
    requires Distinct(order)
    requires TotalFloors(policy, input, order) <= l.maxItems && FloorCharacters(policy, input, order) <= l.maxCharacters
    requires forall t :: SlotsInto(policy, order, t) <= Max(0, l.maxPerKey)
    ensures Inv(PassOne(Start(input), l, policy, order), l, input)
    ensures Served(PassOne(Start(input), l, policy, order), policy, input, order)
  {
    StartOk(input, l);
    PassOneKeeps(Start(input), l, input, policy, order);
    if order != [] {
      var n := |order| - 1;
      assert order == order[..n] + [order[n]];
      forall t ensures SlotsInto(policy, order[..n], t) <= Max(0, l.maxPerKey) {
        assert SlotsInto(policy, order[..n], t) <= SlotsInto(policy, order, t);
      }
      PassOneServes(input, l, policy, order[..n]);
      assert SlotsInto(policy, order, Target(order[n])) <= Max(0, l.maxPerKey);
      ServeNext(PassOne(Start(input), l, policy, order[..n]), l, input, policy, order[..n], order[n]);
    }
  }

  /** Pass 1 at one more queue, when those of `rest` are served. */
  lemma ServeNext(a: Alloc, l: Limits, input: Queues, policy: Policy, rest: seq<Section>, s: Section)
    requires s !in rest && Inv(a, l, input) && Served(a, policy, input, rest)
    requires TotalFloors(policy, input, rest) + Floor(policy, input, s) <= l.maxItems
    requires FloorCharacters(policy, input, rest) + Characters(Favoured(policy, input, s)) <= l.maxCharacters
    requires SlotsInto(policy, rest, Target(s)) + SlotsOf(policy, s) <= Max(0, l.maxPerKey)
    ensures Served(TakeSlots(a, l, s, policy(s), 0), policy, input, rest + [s])
  {
    SlotsHaveRoom(a, l, input, policy, rest, s);
    SlotsAreTaken(a, l, input, policy, s);
    ServeOne(a, TakeSlots(a, l, s, policy(s), 0), policy, input, rest, s);
  }

  lemma SlotsAreTaken(a: Alloc, l: Limits, input: Queues, policy: Policy, s: Section)
    requires Inv(a, l, input) && Get(a.queues, s) == Get(input, s)
    requires Floor(policy, input, s) > 0 ==> RoomFor(a, l, s, Floor(policy, input, s))
    ensures Took(a, TakeSlots(a, l, s, policy(s), 0), s, Floor(policy, input, s))
  {
    TakeSlotsAdmits(a, l, input, s, policy(s), 0);
  }

  lemma SlotsHaveRoom(a: Alloc, l: Limits, input: Queues, policy: Policy, rest: seq<Section>, s: Section)
    requires s !in rest && Served(a, policy, input, rest)
    requires TotalFloors(policy, input, rest) + Floor(policy, input, s) <= l.maxItems
    requires FloorCharacters(policy, input, rest) + Characters(Favoured(policy, input, s)) <= l.maxCharacters
    requires SlotsInto(policy, rest, Target(s)) + SlotsOf(policy, s) <= Max(0, l.maxPerKey)
    ensures Get(a.queues, s) == Get(input, s)
    ensures Floor(policy, input, s) > 0 ==> RoomFor(a, l, s, Floor(policy, input, s))
  {
    assert |Landed(a.admitted, Target(s))| <= SlotsInto(policy, rest, Target(s));
  }

  lemma PassOneHasNoRepeats()
    ensures Distinct(PASS_ONE)
  {
  }

  lemma {:induction false} FromIsPrefix(x: seq<Decision>, y: seq<Decision>, s: Section)
    requires x <= y
    ensures From(x, s) <= From(y, s)
  {
    if x == y {
    } else {
      FromIsPrefix(x, y[..|y| - 1], s);
    }
  }

  /**
   * When the limits have room for the items the slots are for, and the cap covers the slots of every output
   * section, each queue's admitted items begin with its first `slots` items, or with all of them.
   */
  lemma SlotsAreServedFirst(input: Queues, l: Limits, policy: Policy, s: Section)
    requires Fits(policy, input, l) && CapCoversSlots(policy, l.maxPerKey)
    ensures Favoured(policy, input, s) <= From(Allocate(input, l, policy).admitted, s)
    ensures FloorMet(policy, input, l, s)
  {
    PassOneHasNoRepeats();
    PassOneServes(input, l, policy, PASS_ONE);
    AllocateKeeps(input, l, policy);
    EverySectionIsListed(s);
    FromIsPrefix(PassOne(Start(input), l, policy, PASS_ONE).admitted, Allocate(input, l, policy).admitted, s);
  }

  // ----- and no weaker cap will do -----

  /** Every input that fits meets every floor. */
  ghost predicate FloorsGuaranteed(policy: Policy, perKey: int) {
    forall input, l, s :: Fits(policy, input, l) && l.maxPerKey == perKey ==> FloorMet(policy, input, l, s)
  }

  function Copies(n: nat): seq<Item> { seq(n, i => Item(0, 0, 0)) }

  /** As many items as slots, all alike. */
  function Alike(policy: Policy): Queues { map s: Section | true :: Copies(SlotsOf(policy, s)) }

  lemma {:induction false} NoCharacters(s: seq<Item>)
    requires forall x :: x in s ==> x.characters == 0
    ensures Characters(s) == 0
  {
    if s != [] {
      NoCharacters(s[..|s| - 1]);
    }
  }

  lemma {:induction false} AlikeWeighsNothing(policy: Policy, order: seq<Section>)
    ensures FloorCharacters(policy, Alike(policy), order) == 0
  {
    if order != [] {
      AlikeWeighsNothing(policy, order[..|order| - 1]);
      NoCharacters(Favoured(policy, Alike(policy), order[|order| - 1]));
    }
  }

  /** Decisions of a log that come from `order` and land in `t`. */
  function LandedFrom(log: seq<Decision>, order: seq<Section>, t: Section): nat {
    if order == [] then 0
    else
      var s := order[|order| - 1];
      LandedFrom(log, order[..|order| - 1], t) + (if Target(s) == t then |From(log, s)| else 0)
  }

  lemma {:induction false} LandedFromGrows(log: seq<Decision>, d: Decision, order: seq<Section>, t: Section)
    requires Distinct(order)
    ensures LandedFrom(log + [d], order, t)
      == LandedFrom(log, order, t) + if d.section in order && Target(d.section) == t then 1 else 0
  {
    if order != [] {
      var s, rest := order[|order| - 1], order[..|order| - 1];
      assert order == rest + [s];
      LandedFromGrows(log, d, rest, t);
      FromGrows(log, d, s);
    }
  }

  lemma {:induction false} NothingLanded(order: seq<Section>, t: Section)
    ensures LandedFrom([], order, t) == 0
  {
    if order != [] {
      NothingLanded(order[..|order| - 1], t);
    }
  }

  lemma {:induction false} LandedFromWithin(log: seq<Decision>, order: seq<Section>, t: Section)
    requires Distinct(order)
    ensures LandedFrom(log, order, t) <= |Landed(log, t)|
  {
    if log == [] {
      NothingLanded(order, t);
    } else {
      var rest, d := log[..|log| - 1], log[|log| - 1];
      assert log == rest + [d];
      LandedFromWithin(rest, order, t);
      LandedFromGrows(rest, d, order, t);
      LandedGrows(rest, d, t);
    }
  }

  lemma {:induction false} SlotsLanded(log: seq<Decision>, policy: Policy, order: seq<Section>, t: Section)
    requires forall s :: |From(log, s)| >= SlotsOf(policy, s)
    ensures LandedFrom(log, order, t) >= SlotsInto(policy, order, t)
  {
    if order != [] {
      SlotsLanded(log, policy, order[..|order| - 1], t);
    }
  }

  lemma {:induction false} LogItemIsFrom(log: seq<Decision>, d: Decision)
    requires d in log
    ensures d.item in From(log, d.section)
  {
    var n := |log| - 1;
    assert log == log[..n] + [log[n]];
    if d in log[..n] {
      LogItemIsFrom(log[..n], d);
    }
  }

  lemma {:induction false} AllOneKey(log: seq<Decision>, t: Section)
    requires forall d :: d in log ==> d.item.key == 0
    ensures CountKey(Landed(log, t), 0) == |Landed(log, t)|
  {
    if log != [] {
      var rest, d := log[..|log| - 1], log[|log| - 1];
      assert log == rest + [d];
      AllOneKey(rest, t);
      LandedGrows(rest, d, t);
      AppendItem(Landed(rest, t), d.item);
    }
  }

  /** Of items all alike, an output section takes no more than the cap. */
  lemma AlikeIsCapped(policy: Policy, l: Limits, t: Section)
    ensures |Landed(Allocate(Alike(policy), l, policy).admitted, t)| <= Max(0, l.maxPerKey)
  {
    var input := Alike(policy);
    var a := Allocate(input, l, policy);
    forall d | d in a.admitted ensures d.item.key == 0 {
      LogItemIsFrom(a.admitted, d);
      InputOrderIsKept(input, l, policy, d.section);
      ShuffleTotals(From(a.admitted, d.section), From(a.rejected, d.section), Get(input, d.section));
    }
    AllOneKey(a.admitted, t);
    DiversityIsCapped(input, l, policy, t, 0);
    InputOrderIsKept(input, l, policy, t);
  }

  lemma AlikeMissesAFloor(policy: Policy, l: Limits, t: Section)
    requires SlotsInto(policy, PASS_ONE, t) > Max(0, l.maxPerKey)
    ensures exists s :: !FloorMet(policy, Alike(policy), l, s)
  {
    var log := Allocate(Alike(policy), l, policy).admitted;
    if forall s :: FloorMet(policy, Alike(policy), l, s) {
      forall s ensures |From(log, s)| >= SlotsOf(policy, s) {
        assert FloorMet(policy, Alike(policy), l, s);
      }
      SlotsLanded(log, policy, PASS_ONE, t);
      PassOneHasNoRepeats();
      LandedFromWithin(log, PASS_ONE, t);
      AlikeIsCapped(policy, l, t);
      assert false;
    }
  }

  /**
   * Every input that fits gets its floors exactly when the diversity cap covers, for every output section,
   * all the slots that land there. Procedure and evidence slots land in the same section, so a cap that
   * covers each of them alone is not enough.
   */
  lemma FloorsGuaranteedIff(policy: Policy, perKey: int)
    ensures FloorsGuaranteed(policy, perKey) <==> CapCoversSlots(policy, perKey)
  {
    if CapCoversSlots(policy, perKey) {
      forall input, l, s | Fits(policy, input, l) && l.maxPerKey == perKey ensures FloorMet(policy, input, l, s) {
        SlotsAreServedFirst(input, l, policy, s);
      }
    } else {
      var t :| SlotsInto(policy, PASS_ONE, t) > Max(0, perKey);
      var l := Limits(TotalFloors(policy, Alike(policy), PASS_ONE), 0, perKey);
      AlikeMissesAFloor(policy, l, t);
      AlikeWeighsNothing(policy, PASS_ONE);
      assert Fits(policy, Alike(policy), l);
      var s :| !FloorMet(policy, Alike(policy), l, s);
    }
  }

  lemma {:induction false} IntoWithin(policy: Policy, order: seq<Section>, t: Section, bound: nat)
    requires Distinct(order)
    requires forall s :: SlotsOf(policy, s) <= bound
    requires SlotsOf(policy, ProcedureSummaries) + SlotsOf(policy, EvidenceSummaries) <= bound
    ensures SlotsInto(policy, order, t) <= bound
    ensures t.EvidenceSummaries? && ProcedureSummaries !in order
      ==> SlotsInto(policy, order, t) <= SlotsOf(policy, EvidenceSummaries)
    ensures t.EvidenceSummaries? && EvidenceSummaries !in order
      ==> SlotsInto(policy, order, t) <= SlotsOf(policy, ProcedureSummaries)
    ensures (forall s :: s in order ==> Target(s) != t) ==> SlotsInto(policy, order, t) == 0
  {
    if order != [] {
      var s, rest := order[|order| - 1], order[..|order| - 1];
      assert order == rest + [s];
      IntoWithin(policy, rest, t, bound);
    }
  }

  lemma DefaultCapCoversSlots()
    ensures CapCoversSlots(DefaultPolicy, DEFAULT_MAX_PER_KEY)
  {
    PassOneHasNoRepeats();
    forall t ensures SlotsInto(DefaultPolicy, PASS_ONE, t) <= 8 {
      IntoWithin(DefaultPolicy, PASS_ONE, t, 8);
    }
  }

  /** The policy and cap the server uses by default guarantee every floor. */
  lemma DefaultsGuaranteeFloors()
    ensures FloorsGuaranteed(DefaultPolicy, DEFAULT_MAX_PER_KEY)
  {
    DefaultCapCoversSlots();
    FloorsGuaranteedIff(DefaultPolicy, DEFAULT_MAX_PER_KEY);
  }

  /** A cap of two covers the two procedure slots and the one evidence slot each, but not both. */
  lemma CapPerQueueIsNotEnough()
    ensures var policy: Policy := (s: Section) =>
        if s.ProcedureSummaries? then 2 else if s.EvidenceSummaries? then 1 else 0;
      (forall s :: policy(s) <= 2) && !FloorsGuaranteed(policy, 2)
  {
    var policy: Policy := (s: Section) =>
      if s.ProcedureSummaries? then 2 else if s.EvidenceSummaries? then 1 else 0;
    EvidenceTakesBoth(policy);
    FloorsGuaranteedIff(policy, 2);
  }

  lemma EvidenceTakesBoth(policy: Policy)
    ensures SlotsInto(policy, PASS_ONE, EvidenceSummaries)
      >= SlotsOf(policy, ProcedureSummaries) + SlotsOf(policy, EvidenceSummaries)
  {
    IntoAtLeast(policy, PASS_ONE);
    EverySectionIsListed(ProcedureSummaries);
    EverySectionIsListed(EvidenceSummaries);
  }

  lemma {:induction false} IntoAtLeast(policy: Policy, order: seq<Section>)
    ensures SlotsInto(policy, order, EvidenceSummaries)
      >= (if ProcedureSummaries in order then SlotsOf(policy, ProcedureSummaries) else 0)
       + (if EvidenceSummaries in order then SlotsOf(policy, EvidenceSummaries) else 0)
  {
    if order != [] {
      var s, rest := order[|order| - 1], order[..|order| - 1];
      assert order == rest + [s];
      IntoAtLeast(policy, rest);
    }
  }
}
