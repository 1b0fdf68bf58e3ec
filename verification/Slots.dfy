/**
 * The context-pack allocator: two greedy passes over nine queues under an item limit, a character limit
 * and a limit per output section and diversity key. An item stands for its diversity key, its opaque
 * value and the length of that value's stable JSON.
 */
module Slots {
  datatype Section =
    | AcceptedFacts | Conflicts | Supersessions | ProcedureSummaries | Observations | EvidenceSummaries
    | DraftClaims | RejectedClaims | Erasures

  datatype Item = Item(key: int, value: int, characters: nat)

  type Queues = map<Section, seq<Item>>

  datatype Limits = Limits(maxItems: int, maxCharacters: int, maxPerKey: int)

  type Policy = Section -> int

  /** `CONTEXT_PACK_SECTION_ORDER`, with the procedure slots spent just before the evidence slots. */
  const PASS_ONE := [AcceptedFacts, Conflicts, Supersessions, Observations, ProcedureSummaries, EvidenceSummaries,
                     DraftClaims, RejectedClaims, Erasures]

  /** `leftoverOrder` */
  const PASS_TWO := [AcceptedFacts, Conflicts, Supersessions, ProcedureSummaries, Observations, EvidenceSummaries,
                     DraftClaims, RejectedClaims, Erasures]

  function DefaultPolicy(s: Section): int {
    match s
    case AcceptedFacts => 6
    case Conflicts => 2
    case Supersessions => 1
    case ProcedureSummaries => 2
    case Observations => 4
    case EvidenceSummaries => 1
    case _ => 0
  }

  const DEFAULT_MAX_PER_KEY := 8

  /** The output section an item of this queue lands in. */
  function Target(s: Section): Section { if s.ProcedureSummaries? then EvidenceSummaries else s }

  function Get(m: Queues, s: Section): seq<Item> { if s in m then m[s] else [] }

  function Push(m: Queues, s: Section, x: Item): Queues { m[s := Get(m, s) + [x]] }

  /** An item of a queue, admitted or omitted. */
  datatype Decision = Decision(section: Section, item: Item)

  /**
   * The allocation so far. `admitted` and `rejected` list the decisions in the order they were made; the
   * original keeps only their numbers and the output.
   */
  datatype Alloc = Alloc(
    queues: Queues, output: Queues, counts: map<(Section, int), nat>,
    usedItems: nat, usedCharacters: nat, omittedItems: nat, omittedCharacters: nat,
    admitted: seq<Decision>, rejected: seq<Decision>)

  function CountFor(a: Alloc, t: Section, key: int): nat {
    if (t, key) in a.counts then a.counts[(t, key)] else 0
  }

  /** Admitting the item now would break a limit. */
  predicate Blocked(a: Alloc, l: Limits, s: Section, x: Item) {
    || a.usedItems + 1 > l.maxItems
    || a.usedCharacters + x.characters > l.maxCharacters
    || CountFor(a, Target(s), x.key) >= l.maxPerKey
  }

  function Omit(a: Alloc, s: Section, x: Item): Alloc {
    a.(omittedItems := a.omittedItems + 1, omittedCharacters := a.omittedCharacters + x.characters,
       rejected := a.rejected + [Decision(s, x)])
  }

  function Admit(a: Alloc, s: Section, x: Item): Alloc {
    a.(output := Push(a.output, Target(s), x),
       counts := a.counts[(Target(s), x.key) := CountFor(a, Target(s), x.key) + 1],
       usedItems := a.usedItems + 1, usedCharacters := a.usedCharacters + x.characters,
       admitted := a.admitted + [Decision(s, x)])
  }

  /** `tryAdmit` */
  function TryAdmit(a: Alloc, l: Limits, s: Section, x: Item): Alloc {
    if Blocked(a, l, s, x) then Omit(a, s, x) else Admit(a, s, x)
  }

  /** `queue.shift()` */
  function Shift(a: Alloc, s: Section): Alloc
    requires Get(a.queues, s) != []
  {
    a.(queues := a.queues[s := Get(a.queues, s)[1..]])
  }

  /** One item of the queue is decided. */
  function Decide(a: Alloc, l: Limits, s: Section): Alloc
    requires Get(a.queues, s) != []
  {
    TryAdmit(Shift(a, s), l, s, Get(a.queues, s)[0])
  }

  /** Pass 1 at one queue: decide items until `cap` are admitted or the queue is empty. */
  function TakeSlots(a: Alloc, l: Limits, s: Section, cap: int, taken: nat): Alloc
    decreases |Get(a.queues, s)|
  {
    if taken >= cap || Get(a.queues, s) == [] then a
    else
      var fits := !Blocked(a, l, s, Get(a.queues, s)[0]);
      TakeSlots(Decide(a, l, s), l, s, cap, if fits then taken + 1 else taken)
  }

  /** The rest of a queue is omitted when the item limit is reached. */
  function Drain(a: Alloc, s: Section): Alloc
    decreases |Get(a.queues, s)|
  {
    if Get(a.queues, s) == [] then a
    else Drain(Omit(Shift(a, s), s, Get(a.queues, s)[0]), s)
  }

  /** Pass 2 at one queue. */
  function Fill(a: Alloc, l: Limits, s: Section): Alloc
    decreases |Get(a.queues, s)|
  {
    if Get(a.queues, s) == [] then a
    else if a.usedItems >= l.maxItems then Drain(a, s)
    else Fill(Decide(a, l, s), l, s)
  }

  function PassOne(a: Alloc, l: Limits, policy: Policy, order: seq<Section>): Alloc {
    if order == [] then a
    else
      var n := |order| - 1;
      TakeSlots(PassOne(a, l, policy, order[..n]), l, order[n], policy(order[n]), 0)
  }

  function PassTwo(a: Alloc, l: Limits, order: seq<Section>): Alloc {
    if order == [] then a else Fill(PassTwo(a, l, order[..|order| - 1]), l, order[|order| - 1])
  }

  function Start(input: Queues): Alloc { Alloc(input, map[], map[], 0, 0, 0, 0, [], []) }

  function Allocate(input: Queues, l: Limits, policy: Policy): Alloc {
    PassTwo(PassOne(Start(input), l, policy, PASS_ONE), l, PASS_TWO)
  }

  /** The allocator as it runs: queues shifted in place, running totals, two passes. */
  class Allocator {
    const limits: Limits
    var queues: Queues
    var output: Queues
    var counts: map<(Section, int), nat>
    var usedItems: nat
    var usedCharacters: nat
    var omittedItems: nat
    var omittedCharacters: nat
    ghost var admitted: seq<Decision>
    ghost var rejected: seq<Decision>

    ghost function Model(): Alloc
      reads this
    {
      Alloc(queues, output, counts, usedItems, usedCharacters, omittedItems, omittedCharacters, admitted, rejected)
    }

    constructor (input: Queues, limits: Limits)
      ensures Model() == Start(input) && this.limits == limits
    {
      this.limits := limits;
      queues, output, counts := input, map[], map[];
      usedItems, usedCharacters, omittedItems, omittedCharacters := 0, 0, 0, 0;
      admitted, rejected := [], [];
    }

    method OmitItem(s: Section, x: Item)
      modifies this
      ensures Model() == Omit(old(Model()), s, x)
    {
      omittedItems, omittedCharacters := omittedItems + 1, omittedCharacters + x.characters;
      rejected := rejected + [Decision(s, x)];
    }

    method AdmitItem(s: Section, x: Item, usedForKey: nat)
      requires usedForKey == CountFor(Model(), Target(s), x.key)
      modifies this
      ensures Model() == Admit(old(Model()), s, x)
    {
      output := Push(output, Target(s), x);
      counts := counts[(Target(s), x.key) := usedForKey + 1];
      usedItems, usedCharacters := usedItems + 1, usedCharacters + x.characters;
      admitted := admitted + [Decision(s, x)];
    }

    method TryAdmitItem(s: Section, x: Item) returns (fits: bool)
      modifies this
      ensures Model() == TryAdmit(old(Model()), limits, s, x)
      ensures fits == !Blocked(old(Model()), limits, s, x)
    {
      if usedItems + 1 > limits.maxItems || usedCharacters + x.characters > limits.maxCharacters {
        OmitItem(s, x);
        return false;
      }
      var usedForKey := if (Target(s), x.key) in counts then counts[(Target(s), x.key)] else 0;
      if usedForKey >= limits.maxPerKey {
        OmitItem(s, x);
        return false;
      }
      AdmitItem(s, x, usedForKey);
      return true;
    }

    method TakeSlotsOf(s: Section, cap: int)
      modifies this
      ensures Model() == TakeSlots(old(Model()), limits, s, cap, 0)
    {
      var count := 0;
      while count < cap && Get(queues, s) != []
        invariant TakeSlots(Model(), limits, s, cap, count) == TakeSlots(old(Model()), limits, s, cap, 0)
        decreases |Get(queues, s)|
      {
        var item := Get(queues, s)[0];
        queues := queues[s := Get(queues, s)[1..]];
        var fits := TryAdmitItem(s, item);
        if fits {
          count := count + 1;
        }
      }
    }

    method DrainQueue(s: Section)
      modifies this
      ensures Model() == Drain(old(Model()), s)
    {
      while Get(queues, s) != []
        invariant Drain(Model(), s) == Drain(old(Model()), s)
        decreases |Get(queues, s)|
      {
        var item := Get(queues, s)[0];
        queues := queues[s := Get(queues, s)[1..]];
        OmitItem(s, item);
      }
    }

    method FillFrom(s: Section)
      modifies this
      ensures Model() == Fill(old(Model()), limits, s)
    {
      while Get(queues, s) != []
        invariant Fill(Model(), limits, s) == Fill(old(Model()), limits, s)
        decreases |Get(queues, s)|
      {
        if usedItems >= limits.maxItems {
          DrainQueue(s);
          return;
        }
        var item := Get(queues, s)[0];
        queues := queues[s := Get(queues, s)[1..]];
        var _ := TryAdmitItem(s, item);
      }
    }

    /** `budgetContextPackWithExpertSlots` */
    method Run(policy: Policy)
      modifies this
      ensures Model() == PassTwo(PassOne(old(Model()), limits, policy, PASS_ONE), limits, PASS_TWO)
    {
      ghost var start := Model();
      for i := 0 to |PASS_ONE|
        invariant Model() == PassOne(start, limits, policy, PASS_ONE[..i])
      {
        assert PASS_ONE[..i + 1][..i] == PASS_ONE[..i];
        TakeSlotsOf(PASS_ONE[i], policy(PASS_ONE[i]));
      }
      assert PASS_ONE[..|PASS_ONE|] == PASS_ONE;
      ghost var middle := Model();
      for i := 0 to |PASS_TWO|
        invariant Model() == PassTwo(middle, limits, PASS_TWO[..i])
      {
        assert PASS_TWO[..i + 1][..i] == PASS_TWO[..i];
        FillFrom(PASS_TWO[i]);
      }
      assert PASS_TWO[..|PASS_TWO|] == PASS_TWO;
    }
  }
}
