/** What the allocator guarantees: nothing lost or invented, limits kept, maximality, and slot floors. */
module SlotTheorems {
  import opened Ordering
  import opened Slots

  function Characters(s: seq<Item>): nat {
    if s == [] then 0 else Characters(s[..|s| - 1]) + s[|s| - 1].characters
  }

  function CountKey(s: seq<Item>, key: int): nat {
    if s == [] then 0 else CountKey(s[..|s| - 1], key) + (if s[|s| - 1].key == key then 1 else 0)
  }

  /** The items of a log, in order, that one queue gave. */
  function From(log: seq<Decision>, s: Section): seq<Item> {
    if log == [] then []
    else
      var n := |log| - 1;
      if log[n].section == s then From(log[..n], s) + [log[n].item] else From(log[..n], s)
  }

  /** The items of a log, in order, that one output section receives. */
  function Landed(log: seq<Decision>, t: Section): seq<Item> {
    if log == [] then []
    else
      var n := |log| - 1;
      if Target(log[n].section) == t then Landed(log[..n], t) + [log[n].item] else Landed(log[..n], t)
  }

  function LogCharacters(log: seq<Decision>): nat {
    if log == [] then 0 else LogCharacters(log[..|log| - 1]) + log[|log| - 1].item.characters
  }

  /** `z` merges `x` and `y`, each kept in its own order. */
  ghost predicate Shuffle(x: seq<Item>, y: seq<Item>, z: seq<Item>) {
    if z == [] then x == [] && y == []
    else
      || (x != [] && x[|x| - 1] == z[|z| - 1] && Shuffle(x[..|x| - 1], y, z[..|z| - 1]))
      || (y != [] && y[|y| - 1] == z[|z| - 1] && Shuffle(x, y[..|y| - 1], z[..|z| - 1]))
  }

  lemma ShuffleGrows(x: seq<Item>, y: seq<Item>, z: seq<Item>, e: Item)
    requires Shuffle(x, y, z)
    ensures Shuffle(x + [e], y, z + [e]) && Shuffle(x, y + [e], z + [e])
  {
    assert (z + [e])[..|z|] == z && (x + [e])[..|x|] == x && (y + [e])[..|y|] == y;
  }

  lemma {:induction false} ShuffleTotals(x: seq<Item>, y: seq<Item>, z: seq<Item>)
    requires Shuffle(x, y, z)
    ensures |z| == |x| + |y| && Characters(z) == Characters(x) + Characters(y)
    ensures forall e :: e in x || e in y ==> e in z
  {
    if z != [] {
      var n := |z| - 1;
      assert z == z[..n] + [z[n]];
      if x != [] && x[|x| - 1] == z[n] && Shuffle(x[..|x| - 1], y, z[..n]) {
        ShuffleTotals(x[..|x| - 1], y, z[..n]);
        assert x == x[..|x| - 1] + [x[|x| - 1]];
      } else {
        ShuffleTotals(x, y[..|y| - 1], z[..n]);
        assert y == y[..|y| - 1] + [y[|y| - 1]];
      }
    }
  }

  lemma AppendItem(s: seq<Item>, e: Item)
    ensures Characters(s + [e]) == Characters(s) + e.characters
    ensures forall key :: CountKey(s + [e], key) == CountKey(s, key) + (if e.key == key then 1 else 0)
  {
    assert (s + [e])[..|s|] == s;
  }

  lemma LogGrows(log: seq<Decision>, d: Decision)
    ensures LogCharacters(log + [d]) == LogCharacters(log) + d.item.characters
  {
    assert (log + [d])[..|log|] == log;
  }

  lemma FromGrows(log: seq<Decision>, d: Decision, s: Section)
    ensures From(log + [d], s) == if d.section == s then From(log, s) + [d.item] else From(log, s)
  {
    assert (log + [d])[..|log|] == log;
  }

  lemma LandedGrows(log: seq<Decision>, d: Decision, t: Section)
    ensures Landed(log + [d], t) == if Target(d.section) == t then Landed(log, t) + [d.item] else Landed(log, t)
  {
    assert (log + [d])[..|log|] == log;
  }

  lemma {:induction false} HeadCharacters(s: seq<Item>)
    requires s != []
    ensures Characters(s) == s[0].characters + Characters(s[1..])
  {
    if |s| == 1 {
      assert s[1..] == [] && s[..0] == [];
    } else {
      var n := |s| - 1;
      HeadCharacters(s[..n]);
      assert s[..n][1..] == s[1..][..n - 1];
    }
  }

  lemma {:induction false} CountWithin(s: seq<Item>, key: int)
    ensures CountKey(s, key) <= |s|
  {
    if s != [] {
      CountWithin(s[..|s| - 1], key);
    }
  }

  // ----- the invariant -----

  /** `x` and `y` merge to the part of `whole` before `rest`. */
  ghost predicate Consumed(x: seq<Item>, y: seq<Item>, rest: seq<Item>, whole: seq<Item>) {
    var k := |whole| - |rest|;
    k >= 0 && rest == whole[k..] && Shuffle(x, y, whole[..k])
  }

  /** What was decided of a queue merges back to the prefix of the input that was consumed. */
  ghost predicate QueueOk(a: Alloc, input: Queues, s: Section) {
    Consumed(From(a.admitted, s), From(a.rejected, s), Get(a.queues, s), Get(input, s))
  }

  /** An output section is what was admitted for it, in order, and no key exceeds its cap there. */
  predicate OutputOk(a: Alloc, t: Section) { Get(a.output, t) == Landed(a.admitted, t) }

  predicate KeyOk(a: Alloc, l: Limits, t: Section, key: int) {
    CountFor(a, t, key) == CountKey(Landed(a.admitted, t), key) && CountFor(a, t, key) <= Max(0, l.maxPerKey)
  }

  predicate RejectedOk(a: Alloc, l: Limits, d: Decision) {
    d in a.rejected ==> Blocked(a, l, d.section, d.item)
  }

  predicate TotalsOk(a: Alloc, l: Limits) {
    && a.usedItems == |a.admitted| <= Max(0, l.maxItems)
    && a.usedCharacters == LogCharacters(a.admitted) <= Max(0, l.maxCharacters)
    && a.omittedItems == |a.rejected| && a.omittedCharacters == LogCharacters(a.rejected)
  }

  ghost predicate Inv(a: Alloc, l: Limits, input: Queues) {
    && TotalsOk(a, l)
    && (forall s {:trigger QueueOk(a, input, s)} :: QueueOk(a, input, s))
    && (forall t {:trigger OutputOk(a, t)} :: OutputOk(a, t))
    && (forall t, key {:trigger KeyOk(a, l, t, key)} :: KeyOk(a, l, t, key))
    && (forall d {:trigger RejectedOk(a, l, d)} :: RejectedOk(a, l, d))
  }

  lemma StartOk(input: Queues, l: Limits)
    ensures Inv(Start(input), l, input)
  {
    var a := Start(input);
    forall s ensures QueueOk(a, input, s) {
      assert Get(input, s)[0..] == Get(input, s) && Get(input, s)[..0] == [];
    }
  }

  // ----- one decision keeps the invariant -----

  /** The head of a queue moves to the consumed prefix, on either side. */
  lemma HeadIsConsumed(x: seq<Item>, y: seq<Item>, rest: seq<Item>, whole: seq<Item>)
    requires Consumed(x, y, rest, whole) && rest != []
    ensures Consumed(x + [rest[0]], y, rest[1..], whole) && Consumed(x, y + [rest[0]], rest[1..], whole)
  {
    var k := |whole| - |rest|;
    assert whole[..k + 1] == whole[..k] + [rest[0]] && whole[k + 1..] == rest[1..];
    ShuffleGrows(x, y, whole[..k], rest[0]);
  }

  lemma SameQueueIsOk(a: Alloc, b: Alloc, input: Queues, r: Section)
    requires QueueOk(a, input, r) && Get(b.queues, r) == Get(a.queues, r)
    requires From(b.admitted, r) == From(a.admitted, r) && From(b.rejected, r) == From(a.rejected, r)
    ensures QueueOk(b, input, r)
  {
  }

  lemma OmitLeaves(a: Alloc, s: Section, r: Section)
    requires Get(a.queues, s) != [] && r != s
    ensures var b := Omit(Shift(a, s), s, Get(a.queues, s)[0]);
      && Get(b.queues, r) == Get(a.queues, r)
      && From(b.admitted, r) == From(a.admitted, r) && From(b.rejected, r) == From(a.rejected, r)
  {
    FromGrows(a.rejected, Decision(s, Get(a.queues, s)[0]), r);
  }

  lemma AdmitLeaves(a: Alloc, s: Section, r: Section)
    requires Get(a.queues, s) != [] && r != s
    ensures var b := Admit(Shift(a, s), s, Get(a.queues, s)[0]);
      && Get(b.queues, r) == Get(a.queues, r)
      && From(b.admitted, r) == From(a.admitted, r) && From(b.rejected, r) == From(a.rejected, r)
  {
    FromGrows(a.admitted, Decision(s, Get(a.queues, s)[0]), r);
  }

  lemma OmitOwnQueue(a: Alloc, input: Queues, s: Section)
    requires QueueOk(a, input, s) && Get(a.queues, s) != []
    ensures QueueOk(Omit(Shift(a, s), s, Get(a.queues, s)[0]), input, s)
  {
    FromGrows(a.rejected, Decision(s, Get(a.queues, s)[0]), s);
    HeadIsConsumed(From(a.admitted, s), From(a.rejected, s), Get(a.queues, s), Get(input, s));
  }

  lemma AdmitOwnQueue(a: Alloc, input: Queues, s: Section)
    requires QueueOk(a, input, s) && Get(a.queues, s) != []
    ensures QueueOk(Admit(Shift(a, s), s, Get(a.queues, s)[0]), input, s)
  {
    FromGrows(a.admitted, Decision(s, Get(a.queues, s)[0]), s);
    HeadIsConsumed(From(a.admitted, s), From(a.rejected, s), Get(a.queues, s), Get(input, s));
  }

  lemma OmitQueue(a: Alloc, input: Queues, s: Section, r: Section)
    requires QueueOk(a, input, r) && Get(a.queues, s) != []
    ensures QueueOk(Omit(Shift(a, s), s, Get(a.queues, s)[0]), input, r)
  {
    if r == s {
      OmitOwnQueue(a, input, s);
    } else {
      OmitLeaves(a, s, r);
      SameQueueIsOk(a, Omit(Shift(a, s), s, Get(a.queues, s)[0]), input, r);
    }
  }

  lemma AdmitQueue(a: Alloc, input: Queues, s: Section, r: Section)
    requires QueueOk(a, input, r) && Get(a.queues, s) != []
    ensures QueueOk(Admit(Shift(a, s), s, Get(a.queues, s)[0]), input, r)
  {
    if r == s {
      AdmitOwnQueue(a, input, s);
    } else {
      AdmitLeaves(a, s, r);
      SameQueueIsOk(a, Admit(Shift(a, s), s, Get(a.queues, s)[0]), input, r);
    }
  }

  lemma OmitKeeps(a: Alloc, l: Limits, input: Queues, s: Section)
    requires Inv(a, l, input) && Get(a.queues, s) != []
    requires Blocked(a, l, s, Get(a.queues, s)[0])
    ensures Inv(Omit(Shift(a, s), s, Get(a.queues, s)[0]), l, input)
  {
    var x := Get(a.queues, s)[0];
    var b := Omit(Shift(a, s), s, x);
    LogGrows(a.rejected, Decision(s, x));
    forall r ensures QueueOk(b, input, r) {
      assert QueueOk(a, input, r);
      OmitQueue(a, input, s, r);
    }
    forall t ensures OutputOk(b, t) {
      assert OutputOk(a, t);
    }
    forall t, key ensures KeyOk(b, l, t, key) {
      assert KeyOk(a, l, t, key);
    }
    forall d ensures RejectedOk(b, l, d) {
      assert RejectedOk(a, l, d);
    }
  }

  lemma AdmitOutput(a: Alloc, s: Section, x: Item, t: Section)
    requires OutputOk(a, t)
    ensures OutputOk(Admit(a, s, x), t)
  {
    LandedGrows(a.admitted, Decision(s, x), t);
  }

  lemma CountAfterAdmit(a: Alloc, s: Section, x: Item, t: Section, key: int)
    ensures CountFor(Admit(a, s, x), t, key)
      == CountFor(a, t, key) + if t == Target(s) && key == x.key then 1 else 0
  {
  }

  lemma AdmitKey(a: Alloc, l: Limits, s: Section, x: Item, t: Section, key: int)
    requires KeyOk(a, l, t, key) && CountFor(a, Target(s), x.key) < l.maxPerKey
    ensures KeyOk(Admit(a, s, x), l, t, key)
    ensures CountFor(Admit(a, s, x), t, key) >= CountFor(a, t, key)
  {
    CountAfterAdmit(a, s, x, t, key);
    LandedGrows(a.admitted, Decision(s, x), t);
    AppendItem(Landed(a.admitted, t), x);
    var b := Admit(a, s, x);
    assert CountKey(Landed(b.admitted, t), key)
      == CountKey(Landed(a.admitted, t), key) + if t == Target(s) && key == x.key then 1 else 0;
  }

  lemma AdmitTotals(a: Alloc, l: Limits, s: Section, x: Item)
    requires TotalsOk(a, l) && !Blocked(a, l, s, x)
    ensures TotalsOk(Admit(a, s, x), l)
  {
    LogGrows(a.admitted, Decision(s, x));
  }

  lemma AdmitRejected(a: Alloc, l: Limits, s: Section, x: Item, d: Decision)
    requires RejectedOk(a, l, d) && KeyOk(a, l, Target(d.section), d.item.key) && !Blocked(a, l, s, x)
    ensures RejectedOk(Admit(a, s, x), l, d)
  {
    AdmitKey(a, l, s, x, Target(d.section), d.item.key);
  }

  lemma AdmitKeeps(a: Alloc, l: Limits, input: Queues, s: Section)
    requires Inv(a, l, input) && Get(a.queues, s) != []
    requires !Blocked(a, l, s, Get(a.queues, s)[0])
    ensures Inv(Admit(Shift(a, s), s, Get(a.queues, s)[0]), l, input)
  {
    var x := Get(a.queues, s)[0];
    var c := Shift(a, s);
    var b := Admit(c, s, x);
    AdmitTotals(c, l, s, x);
    forall r ensures QueueOk(b, input, r) {
      assert QueueOk(a, input, r);
      AdmitQueue(a, input, s, r);
    }
    forall t ensures OutputOk(b, t) {
      assert OutputOk(a, t);
      AdmitOutput(c, s, x, t);
    }
    forall t, key ensures KeyOk(b, l, t, key) {
      assert KeyOk(a, l, t, key);
      AdmitKey(c, l, s, x, t, key);
    }
    forall d ensures RejectedOk(b, l, d) {
      assert RejectedOk(a, l, d) && KeyOk(a, l, Target(d.section), d.item.key);
      AdmitRejected(c, l, s, x, d);
    }
  }

  lemma DecideKeeps(a: Alloc, l: Limits, input: Queues, s: Section)
    requires Inv(a, l, input) && Get(a.queues, s) != []
    ensures Inv(Decide(a, l, s), l, input)
  {
    var x := Get(a.queues, s)[0];
    assert Blocked(Shift(a, s), l, s, x) == Blocked(a, l, s, x);
    if Blocked(a, l, s, x) {
      OmitKeeps(a, l, input, s);
    } else {
      AdmitKeeps(a, l, input, s);
    }
  }

  /** The other queues are as they were, and what was admitted stays admitted. */
  predicate Later(a: Alloc, b: Alloc, s: Section) {
    && (forall r :: r != s ==> Get(b.queues, r) == Get(a.queues, r))
    && a.admitted <= b.admitted
  }

  lemma LaterTransitive(a: Alloc, b: Alloc, c: Alloc, s: Section)
    requires Later(a, b, s) && Later(b, c, s)
    ensures Later(a, c, s)
  {
  }

  lemma DecideIsLater(a: Alloc, l: Limits, s: Section)
    requires Get(a.queues, s) != []
    ensures Later(a, Decide(a, l, s), s)
  {
  }

  // ----- both passes keep the invariant -----

  lemma {:induction false} TakeSlotsKeeps(a: Alloc, l: Limits, input: Queues, s: Section, cap: int, taken: nat)
    requires Inv(a, l, input)
    ensures Inv(TakeSlots(a, l, s, cap, taken), l, input)
    decreases |Get(a.queues, s)|
  {
    if taken < cap && Get(a.queues, s) != [] {
      DecideKeeps(a, l, input, s);
      var fits := !Blocked(a, l, s, Get(a.queues, s)[0]);
      TakeSlotsKeeps(Decide(a, l, s), l, input, s, cap, if fits then taken + 1 else taken);
    }
  }

  lemma {:induction false} PassOneKeeps(a: Alloc, l: Limits, input: Queues, policy: Policy, order: seq<Section>)
    requires Inv(a, l, input)
    ensures Inv(PassOne(a, l, policy, order), l, input)
  {
    if order != [] {
      var n := |order| - 1;
      PassOneKeeps(a, l, input, policy, order[..n]);
      TakeSlotsKeeps(PassOne(a, l, policy, order[..n]), l, input, order[n], policy(order[n]), 0);
    }
  }

  lemma {:induction false} DrainKeeps(a: Alloc, l: Limits, input: Queues, s: Section)
    requires Inv(a, l, input) && a.usedItems >= l.maxItems
    ensures Inv(Drain(a, s), l, input)
    ensures Get(Drain(a, s).queues, s) == [] && Later(a, Drain(a, s), s)
    decreases |Get(a.queues, s)|
  {
    if Get(a.queues, s) != [] {
      OmitKeeps(a, l, input, s);
      DrainKeeps(Omit(Shift(a, s), s, Get(a.queues, s)[0]), l, input, s);
    }
  }

  lemma {:induction false} FillKeeps(a: Alloc, l: Limits, input: Queues, s: Section)
    requires Inv(a, l, input)
    ensures Inv(Fill(a, l, s), l, input)
    ensures Get(Fill(a, l, s).queues, s) == [] && Later(a, Fill(a, l, s), s)
    decreases |Get(a.queues, s)|
  {
    if Get(a.queues, s) != [] {
      if a.usedItems >= l.maxItems {
        DrainKeeps(a, l, input, s);
      } else {
        var b := Decide(a, l, s);
        DecideKeeps(a, l, input, s);
        DecideIsLater(a, l, s);
        FillKeeps(b, l, input, s);
        LaterTransitive(a, b, Fill(b, l, s), s);
      }
    }
  }

  lemma {:induction false} PassTwoKeeps(a: Alloc, l: Limits, input: Queues, order: seq<Section>)
    requires Inv(a, l, input)
    ensures Inv(PassTwo(a, l, order), l, input)
    ensures forall s :: s in order ==> Get(PassTwo(a, l, order).queues, s) == []
    ensures a.admitted <= PassTwo(a, l, order).admitted
  {
    if order != [] {
      var n := |order| - 1;
      assert order == order[..n] + [order[n]];
      PassTwoKeeps(a, l, input, order[..n]);
      FillKeeps(PassTwo(a, l, order[..n]), l, input, order[n]);
    }
  }

  lemma EverySectionIsListed(s: Section)
    ensures s in PASS_ONE && s in PASS_TWO
  {
    assert PASS_ONE[0] == AcceptedFacts && PASS_ONE[1] == Conflicts && PASS_ONE[2] == Supersessions
      && PASS_ONE[3] == Observations && PASS_ONE[4] == ProcedureSummaries && PASS_ONE[5] == EvidenceSummaries
      && PASS_ONE[6] == DraftClaims && PASS_ONE[7] == RejectedClaims && PASS_ONE[8] == Erasures;
    assert PASS_TWO[0] == AcceptedFacts && PASS_TWO[1] == Conflicts && PASS_TWO[2] == Supersessions
      && PASS_TWO[3] == ProcedureSummaries && PASS_TWO[4] == Observations && PASS_TWO[5] == EvidenceSummaries
      && PASS_TWO[6] == DraftClaims && PASS_TWO[7] == RejectedClaims && PASS_TWO[8] == Erasures;
  }

  lemma AllocateKeeps(input: Queues, l: Limits, policy: Policy)
    ensures Inv(Allocate(input, l, policy), l, input)
    ensures forall s :: Get(Allocate(input, l, policy).queues, s) == []
    ensures PassOne(Start(input), l, policy, PASS_ONE).admitted <= Allocate(input, l, policy).admitted
  {
    StartOk(input, l);
    PassOneKeeps(Start(input), l, input, policy, PASS_ONE);
    PassTwoKeeps(PassOne(Start(input), l, policy, PASS_ONE), l, input, PASS_TWO);
    forall s ensures s in PASS_TWO {
      EverySectionIsListed(s);
    }
  }

  // ----- what callers get -----

  function Total(f: Section -> nat): nat {
    f(AcceptedFacts) + f(Conflicts) + f(Supersessions) + f(ProcedureSummaries) + f(Observations)
    + f(EvidenceSummaries) + f(DraftClaims) + f(RejectedClaims) + f(Erasures)
  }

  lemma TotalGrows(f: Section -> nat, g: Section -> nat, s: Section, k: nat)
    requires g(s) == f(s) + k && forall t :: t != s ==> g(t) == f(t)
    ensures Total(g) == Total(f) + k
  {
  }

  lemma TotalAdds(f: Section -> nat, g: Section -> nat, h: Section -> nat)
    requires forall s :: h(s) == f(s) + g(s)
    ensures Total(h) == Total(f) + Total(g)
  {
  }

  function Lengths(m: Queues): Section -> nat { s => |Get(m, s)| }

  function Weights(m: Queues): Section -> nat { s => Characters(Get(m, s)) }

  /** The number of items over all sections. */
  function Size(m: Queues): nat { Total(Lengths(m)) }

  /** The number of characters over all sections. */
  function Weight(m: Queues): nat { Total(Weights(m)) }

  function FromLengths(log: seq<Decision>): Section -> nat { s => |From(log, s)| }
  function FromWeights(log: seq<Decision>): Section -> nat { s => Characters(From(log, s)) }
  function LandedLengths(log: seq<Decision>): Section -> nat { t => |Landed(log, t)| }
  function LandedWeights(log: seq<Decision>): Section -> nat { t => Characters(Landed(log, t)) }

  lemma FromLengthsGrow(log: seq<Decision>, d: Decision)
    ensures Total(FromLengths(log + [d])) == Total(FromLengths(log)) + 1
  {
    forall s ensures FromLengths(log + [d])(s) == FromLengths(log)(s) + if s == d.section then 1 else 0 {
      FromGrows(log, d, s);
    }
    TotalGrows(FromLengths(log), FromLengths(log + [d]), d.section, 1);
  }

  lemma FromWeightsGrow(log: seq<Decision>, d: Decision)
    ensures Total(FromWeights(log + [d])) == Total(FromWeights(log)) + d.item.characters
  {
    forall s
      ensures FromWeights(log + [d])(s) == FromWeights(log)(s) + if s == d.section then d.item.characters else 0
    {
      FromGrows(log, d, s);
      AppendItem(From(log, s), d.item);
    }
    TotalGrows(FromWeights(log), FromWeights(log + [d]), d.section, d.item.characters);
  }

  lemma LandedLengthsGrow(log: seq<Decision>, d: Decision)
    ensures Total(LandedLengths(log + [d])) == Total(LandedLengths(log)) + 1
  {
    forall t ensures LandedLengths(log + [d])(t) == LandedLengths(log)(t) + if t == Target(d.section) then 1 else 0 {
      LandedGrows(log, d, t);
    }
    TotalGrows(LandedLengths(log), LandedLengths(log + [d]), Target(d.section), 1);
  }

  lemma LandedWeightsGrow(log: seq<Decision>, d: Decision)
    ensures Total(LandedWeights(log + [d])) == Total(LandedWeights(log)) + d.item.characters
  {
    forall t ensures LandedWeights(log + [d])(t)
      == LandedWeights(log)(t) + if t == Target(d.section) then d.item.characters else 0
    {
      LandedGrows(log, d, t);
      AppendItem(Landed(log, t), d.item);
    }
    TotalGrows(LandedWeights(log), LandedWeights(log + [d]), Target(d.section), d.item.characters);
  }

  /** Sorting a log by queue, or by output section, loses no item and no character. */
  lemma {:induction false} LogTotals(log: seq<Decision>)
    ensures Total(FromLengths(log)) == |log| && Total(FromWeights(log)) == LogCharacters(log)
    ensures Total(LandedLengths(log)) == |log| && Total(LandedWeights(log)) == LogCharacters(log)
  {
    if log != [] {
      var rest, d := log[..|log| - 1], log[|log| - 1];
      assert log == rest + [d];
      LogTotals(rest);
      FromLengthsGrow(rest, d);
      FromWeightsGrow(rest, d);
      LandedLengthsGrow(rest, d);
      LandedWeightsGrow(rest, d);
    }
  }

  /** Each queue splits into admitted and omitted items, both in input order. */
  lemma InputOrderIsKept(input: Queues, l: Limits, policy: Policy, s: Section)
    ensures var a := Allocate(input, l, policy);
      && Shuffle(From(a.admitted, s), From(a.rejected, s), Get(input, s))
      && Get(a.output, s) == Landed(a.admitted, s)
  {
    AllocateKeeps(input, l, policy);
    var a := Allocate(input, l, policy);
    assert QueueOk(a, input, s) && OutputOk(a, s);
    assert Get(input, s)[..|Get(input, s)|] == Get(input, s);
  }

  /**
   * The allocator loses and invents nothing: used plus omitted is the input, in items and in characters;
   * used figures are the sums over the output; both stay within budget.
   */
  lemma NothingLostOrInvented(input: Queues, l: Limits, policy: Policy)
    ensures var a := Allocate(input, l, policy);
      && a.usedItems + a.omittedItems == Size(input)
      && a.usedCharacters + a.omittedCharacters == Weight(input)
      && a.usedItems == Size(a.output) && a.usedCharacters == Weight(a.output)
      && a.usedItems <= Max(0, l.maxItems) && a.usedCharacters <= Max(0, l.maxCharacters)
  {
    var a := Allocate(input, l, policy);
    AllocateKeeps(input, l, policy);
    InputTotals(input, l, policy);
    forall t ensures Get(a.output, t) == Landed(a.admitted, t) {
      assert OutputOk(a, t);
    }
    LogTotals(a.admitted);
    SameTotals(Lengths(a.output), LandedLengths(a.admitted));
    SameTotals(Weights(a.output), LandedWeights(a.admitted));
  }

  lemma SameTotals(f: Section -> nat, g: Section -> nat)
    requires forall s :: f(s) == g(s)
    ensures Total(f) == Total(g)
  {
  }

  lemma InputTotals(input: Queues, l: Limits, policy: Policy)
    ensures var a := Allocate(input, l, policy);
      && Size(input) == |a.admitted| + |a.rejected|
      && Weight(input) == LogCharacters(a.admitted) + LogCharacters(a.rejected)
  {
    var a := Allocate(input, l, policy);
    forall s ensures |Get(input, s)| == |From(a.admitted, s)| + |From(a.rejected, s)|
      && Characters(Get(input, s)) == Characters(From(a.admitted, s)) + Characters(From(a.rejected, s))
    {
      InputOrderIsKept(input, l, policy, s);
      ShuffleTotals(From(a.admitted, s), From(a.rejected, s), Get(input, s));
    }
    LogTotals(a.admitted);
    LogTotals(a.rejected);
    TotalAdds(FromLengths(a.admitted), FromLengths(a.rejected), Lengths(input));
    TotalAdds(FromWeights(a.admitted), FromWeights(a.rejected), Weights(input));
  }

  /** No output section holds more than the cap of any diversity key. */
  lemma DiversityIsCapped(input: Queues, l: Limits, policy: Policy, t: Section, key: int)
    ensures CountKey(Get(Allocate(input, l, policy).output, t), key) <= Max(0, l.maxPerKey)
  {
    AllocateKeeps(input, l, policy);
    assert KeyOk(Allocate(input, l, policy), l, t, key) && OutputOk(Allocate(input, l, policy), t);
  }

  /**
   * The pack is maximal: adding any omitted item would break the item limit, the character limit, or the
   * cap of its key in its output section.
   */
  lemma PackIsMaximal(input: Queues, l: Limits, policy: Policy, d: Decision)
    requires d in Allocate(input, l, policy).rejected
    ensures var a := Allocate(input, l, policy);
      || Size(a.output) + 1 > l.maxItems
      || Weight(a.output) + d.item.characters > l.maxCharacters
      || CountKey(Get(a.output, Target(d.section)), d.item.key) >= l.maxPerKey
  {
    AllocateKeeps(input, l, policy);
    NothingLostOrInvented(input, l, policy);
    var a := Allocate(input, l, policy);
    assert RejectedOk(a, l, d) && KeyOk(a, l, Target(d.section), d.item.key) && OutputOk(a, Target(d.section));
  }
}
