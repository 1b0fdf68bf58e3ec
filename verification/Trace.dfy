/** The bounded walk behind `memory_trace`: breadth first over events that name each other by several ids. */
module Trace {
  import opened Wrappers
  import opened Ordering
  import opened Reachability

  type Id = int

  datatype Body =
    | EvidenceArtifact(artifact: Id)
    | Observation(observation: Id)
    | Claim(claim: Id, support: seq<Id>)
    | AcceptanceDecision(decision: Id, claimRefs: seq<Id>)
    | Supersession(supersession: Id, supersedes: Id, replacement: Option<Id>)

  datatype Event = Event(id: Id, provenance: seq<Id>, body: Body)

  type Lookup = map<Id, Event>

  /** `eventPayloadIds`: each kind of event has one alias. */
  function Alias(e: Event): Id {
    match e.body
    case EvidenceArtifact(a) => a
    case Observation(o) => o
    case Claim(c, _) => c
    case AcceptanceDecision(d, _) => d
    case Supersession(s, _, _) => s
  }

  /** The ids an event refers to, as it names them. */
  function References(e: Event): seq<Id> {
    e.provenance +
    match e.body
    case Claim(_, support) => support
    case AcceptanceDecision(_, refs) => refs
    case Supersession(_, superseded, replacement) =>
      [superseded] + (if replacement.Some? then [replacement.value] else [])
    case _ => []
  }

  function Unique(s: seq<Id>): seq<Id> {
    if s == [] then []
    else
      var n := |s| - 1;
      if s[n] in s[..n] then Unique(s[..n]) else Unique(s[..n]) + [s[n]]
  }

  predicate Below(a: Id, b: Id) { a < b }

  /** `relatedEventIds`: those ids, once each, in order. */
  function RelatedIds(e: Event): seq<Id> { SortBy(Unique(References(e)), Below) }

  lemma {:induction false} UniqueKeeps(s: seq<Id>)
    ensures Distinct(Unique(s)) && forall x :: x in Unique(s) <==> x in s
  {
    if s != [] {
      var n := |s| - 1;
      assert s == s[..n] + [s[n]];
      UniqueKeeps(s[..n]);
    }
  }

  lemma RelatedFacts(e: Event)
    ensures Ascending(RelatedIds(e), Below)
    ensures forall r :: r in RelatedIds(e) <==> r in References(e)
  {
    UniqueKeeps(References(e));
    SortOfDistinct(Unique(References(e)), Below);
    SortKeeps(Unique(References(e)), Below);
  }

  /** Later events, and aliases after ids, win. */
  function LookupOf(events: seq<Event>): Lookup {
    if events == [] then map[]
    else
      var e := events[|events| - 1];
      LookupOf(events[..|events| - 1])[e.id := e][Alias(e) := e]
  }

  /** `eventLookup` */
  method EventLookup(events: seq<Event>) returns (byId: Lookup)
    ensures byId == LookupOf(events)
  {
    byId := map[];
    for i := 0 to |events|
      invariant byId == LookupOf(events[..i])
    {
      assert events[..i + 1][..i] == events[..i];
      byId := byId[events[i].id := events[i]][Alias(events[i]) := events[i]];
    }
    assert events[..|events|] == events;
  }

  /** No event's id is also the id or the alias of another event. Two events may share an alias. */
  ghost predicate IdsAreUnique(events: seq<Event>) {
    forall i, j :: 0 <= i < |events| && 0 <= j < |events| && i != j
      ==> events[i].id != events[j].id && events[i].id != Alias(events[j])
  }

  /** The event a found event's own id leads to is that event. */
  ghost predicate Resolved(byId: Lookup) {
    forall n {:trigger byId[n]} {:trigger n in byId} :: n in byId ==> byId[n].id in byId && byId[byId[n].id] == byId[n]
  }

  lemma {:induction false} LookupFinds(events: seq<Event>)
    requires IdsAreUnique(events)
    ensures forall e :: e in events ==> e.id in LookupOf(events) && LookupOf(events)[e.id] == e
    ensures forall n :: n in LookupOf(events) ==> LookupOf(events)[n] in events
    ensures Resolved(LookupOf(events))
  {
    if events != [] {
      var n := |events| - 1;
      LookupFinds(events[..n]);
      assert events == events[..n] + [events[n]];
    }
  }

  /** One event refers to another, by its id or by an alias. */
  ghost function Hops(byId: Lookup): set<(Event, Event)> {
    set n, r | n in byId && r in References(byId[n]) && r in byId :: (byId[n], byId[r])
  }

  /** `b` is at most `k` hops from `a`. */
  ghost predicate Within<V(!new)>(E: set<(V, V)>, a: V, b: V, k: int) {
    exists p :: Connects(E, p, a, b) && |p| - 1 <= k
  }

  lemma WithinSelf<V(!new)>(E: set<(V, V)>, a: V, k: nat)
    ensures Within(E, a, a, k)
  {
    assert Connects(E, [a], a, a);
  }

  lemma WithinEdge<V(!new)>(E: set<(V, V)>, a: V, b: V, c: V, k: int)
    requires Within(E, a, b, k) && (b, c) in E
    ensures Within(E, a, c, k + 1)
  {
    var p :| Connects(E, p, a, b) && |p| - 1 <= k;
    assert Connects(E, p + [c], a, c);
  }

  lemma WithinMore<V(!new)>(E: set<(V, V)>, a: V, b: V, j: int, k: int)
    requires Within(E, a, b, j) && j <= k
    ensures Within(E, a, b, k)
  {
  }

  /** The last hop of a walk that needs all its hops. */
  lemma LastHop<V(!new)>(E: set<(V, V)>, a: V, c: V, k: int) returns (b: V)
    requires Within(E, a, c, k + 1) && !Within(E, a, c, k)
    requires k >= 0
    ensures Within(E, a, b, k) && (b, c) in E
  {
    var p :| Connects(E, p, a, c) && |p| - 1 <= k + 1;
    var n := |p| - 1;
    b := p[n - 1];
    assert Connects(E, p[..n], a, b);
  }

  /** An id of the queue leads to this event. */
  ghost predicate Leads(byId: Lookup, ids: seq<Id>, e: Event) {
    exists i :: 0 <= i < |ids| && ids[i] in byId && byId[ids[i]] == e
  }

  /**
   * The walk between two steps: the queue holds `here` at depth `level`, then `next` at depth `level + 1`.
   */
  datatype Walk = Walk(
    byId: Lookup, start: Event, maxDepth: int, level: nat, seen: set<Id>, here: seq<Id>, next: seq<Id>)

  ghost predicate Sound(w: Walk) {
    && (forall n {:trigger n in w.seen} :: n in w.seen ==>
         n in w.byId && w.byId[n].id == n && Within(Hops(w.byId), w.start, w.byId[n], w.level)
         && Within(Hops(w.byId), w.start, w.byId[n], w.maxDepth))
    && (forall e :: Leads(w.byId, w.here, e) ==> Within(Hops(w.byId), w.start, e, w.level))
    && (forall e :: Leads(w.byId, w.next, e) ==> Within(Hops(w.byId), w.start, e, w.level + 1))
  }

  /** Every event up to this level is found or waiting, and so is all that a found event refers to. */
  ghost predicate Complete(w: Walk) {
    && (w.level <= w.maxDepth ==>
         forall e :: Within(Hops(w.byId), w.start, e, w.level) ==> e.id in w.seen || Leads(w.byId, w.here, e))
    && (w.level < w.maxDepth ==>
         forall d, e :: (d, e) in Hops(w.byId) && d.id in w.seen ==>
           e.id in w.seen || Leads(w.byId, w.here, e) || Leads(w.byId, w.next, e))
    && (w.level > w.maxDepth ==>
         forall e :: Within(Hops(w.byId), w.start, e, w.maxDepth) ==> e.id in w.seen)
  }

  ghost predicate Good(w: Walk) {
    && Resolved(w.byId) && Sound(w) && Complete(w)
    && (exists n :: n in w.byId && w.byId[n] == w.start)
  }

  lemma LeadsFirst(byId: Lookup, ids: seq<Id>, e: Event)
    requires ids != []
    ensures Leads(byId, ids, e) <==> (ids[0] in byId && byId[ids[0]] == e) || Leads(byId, ids[1..], e)
  {
    if Leads(byId, ids, e) {
      var i :| 0 <= i < |ids| && ids[i] in byId && byId[ids[i]] == e;
      assert i > 0 ==> ids[1..][i - 1] == ids[i];
    }
    if Leads(byId, ids[1..], e) {
      var i :| 0 <= i < |ids[1..]| && ids[1..][i] in byId && byId[ids[1..][i]] == e;
      assert ids[i + 1] in byId && byId[ids[i + 1]] == e;
    }
  }

  lemma LeadsEither(byId: Lookup, s: seq<Id>, t: seq<Id>, e: Event)
    ensures Leads(byId, s + t, e) <==> Leads(byId, s, e) || Leads(byId, t, e)
  {
    if Leads(byId, s, e) {
      var i :| 0 <= i < |s| && s[i] in byId && byId[s[i]] == e;
      assert (s + t)[i] == s[i];
    }
    if Leads(byId, t, e) {
      var i :| 0 <= i < |t| && t[i] in byId && byId[t[i]] == e;
      assert (s + t)[|s| + i] == t[i];
    }
  }

  // ----- the three steps of the walk -----

  /** The id waiting first is passed over: already found, too deep, or unknown. */
  predicate PassesOver(w: Walk)
    requires w.here != []
  {
    w.here[0] in w.seen || w.level > w.maxDepth || w.here[0] !in w.byId
  }

  function Step(w: Walk): Walk
    requires w.here != []
  {
    var rest := w.(here := w.here[1..]);
    if PassesOver(w) then rest
    else
      var e := w.byId[w.here[0]];
      rest.(seen := w.seen + {e.id}, next := w.next + RelatedIds(e))
  }

  function Descend(w: Walk): Walk
    requires w.here == []
  {
    w.(level := w.level + 1, here := w.next, next := [])
  }

  lemma PassingOverIsGood(w: Walk)
    requires Good(w) && w.here != [] && PassesOver(w)
    ensures Good(Step(w))
  {
    var v, id := Step(w), w.here[0];
    forall e ensures Leads(w.byId, v.here, e) ==> Leads(w.byId, w.here, e) {
      LeadsFirst(w.byId, w.here, e);
    }
    forall e | w.level <= w.maxDepth && Leads(w.byId, w.here, e)
      ensures e.id in v.seen || Leads(w.byId, v.here, e)
    {
      LeadsFirst(w.byId, w.here, e);
      assert id in w.seen ==> id in w.byId && w.byId[id].id == id;
    }
  }

  lemma Waiting(byId: Lookup, d: Event, e: Event)
    requires (d, e) in Hops(byId)
    ensures Leads(byId, RelatedIds(d), e)
  {
    var n, r :| n in byId && r in References(byId[n]) && r in byId && (byId[n], byId[r]) == (d, e);
    RelatedFacts(d);
    var i :| 0 <= i < |RelatedIds(d)| && RelatedIds(d)[i] == r;
  }

  lemma WaitingIsHop(byId: Lookup, n: Id, e: Event)
    requires n in byId && Leads(byId, RelatedIds(byId[n]), e)
    ensures (byId[n], e) in Hops(byId)
  {
    RelatedFacts(byId[n]);
  }

  lemma ExpandingIsSound(w: Walk)
    requires Good(w) && w.here != [] && !PassesOver(w)
    ensures Sound(Step(w))
  {
    var v, id := Step(w), w.here[0];
    var E, d := Hops(w.byId), w.byId[id];
    assert Leads(w.byId, w.here, d);
    WithinMore(E, w.start, d, w.level, w.maxDepth);
    assert d.id in w.byId && w.byId[d.id] == d;
    forall e | Leads(w.byId, v.here, e) ensures Within(E, w.start, e, w.level) {
      LeadsFirst(w.byId, w.here, e);
    }
    forall e | Leads(w.byId, v.next, e) ensures Within(E, w.start, e, w.level + 1) {
      LeadsEither(w.byId, w.next, RelatedIds(d), e);
      if Leads(w.byId, RelatedIds(d), e) {
        WaitingIsHop(w.byId, id, e);
        WithinEdge(E, w.start, d, e, w.level);
      }
    }
  }

  lemma HopEnds(byId: Lookup, d: Event, e: Event)
    requires Resolved(byId) && (d, e) in Hops(byId)
    ensures d.id in byId && byId[d.id] == d && e.id in byId && byId[e.id] == e
  {
  }

  lemma ExpandingIsComplete(w: Walk)
    requires Good(w) && w.here != [] && !PassesOver(w)
    ensures Complete(Step(w))
  {
    var v, id := Step(w), w.here[0];
    var E, f := Hops(w.byId), w.byId[id];
    assert w.byId[f.id] == f;
    forall e | Within(E, w.start, e, w.level) ensures e.id in v.seen || Leads(w.byId, v.here, e) {
      LeadsFirst(w.byId, w.here, e);
    }
    forall d, e | w.level < w.maxDepth && (d, e) in E && d.id in v.seen
      ensures e.id in v.seen || Leads(w.byId, v.here, e) || Leads(w.byId, v.next, e)
    {
      LeadsEither(w.byId, w.next, RelatedIds(f), e);
      LeadsFirst(w.byId, w.here, e);
      if d.id in w.seen {
        assert e.id in w.seen || Leads(w.byId, w.here, e) || Leads(w.byId, w.next, e);
      } else {
        HopEnds(w.byId, d, e);
        Waiting(w.byId, d, e);
      }
    }
  }

  lemma StepIsGood(w: Walk)
    requires Good(w) && w.here != []
    ensures Good(Step(w))
  {
    if PassesOver(w) {
      PassingOverIsGood(w);
    } else {
      ExpandingIsSound(w);
      ExpandingIsComplete(w);
    }
  }

  lemma NothingLeads(byId: Lookup)
    ensures forall e :: !Leads(byId, [], e)
  {
  }

  lemma DescendIsGood(w: Walk)
    requires Good(w) && w.here == []
    ensures Good(Descend(w))
  {
    var v := Descend(w);
    var E := Hops(w.byId);
    NothingLeads(w.byId);
    forall n | n in w.seen ensures Within(E, w.start, w.byId[n], v.level) {
      WithinMore(E, w.start, w.byId[n], w.level, v.level);
    }
    forall e | v.level <= v.maxDepth && Within(E, w.start, e, v.level)
      ensures e.id in v.seen || Leads(v.byId, v.here, e)
    {
      if !Within(E, w.start, e, w.level) {
        var d := LastHop(E, w.start, e, w.level);
        assert d.id in w.seen;
      }
    }
  }

  /** With nothing waiting, what was found is closed under hops up to the depth limit. */
  lemma {:induction false} NothingMissed(w: Walk, e: Event, k: nat)
    requires Good(w) && w.here == [] && w.next == []
    requires k <= w.maxDepth && Within(Hops(w.byId), w.start, e, k)
    ensures e.id in w.seen
    decreases k
  {
    var E := Hops(w.byId);
    NothingLeads(w.byId);
    if w.level > w.maxDepth {
      WithinMore(E, w.start, e, k, w.maxDepth);
    } else if k <= w.level {
      WithinMore(E, w.start, e, k, w.level);
    } else if Within(E, w.start, e, k - 1) {
      NothingMissed(w, e, k - 1);
    } else {
      var d := LastHop(E, w.start, e, k - 1);
      NothingMissed(w, d, k - 1);
    }
  }

  lemma PathEndsInLookup(byId: Lookup, a: Event, e: Event, k: int)
    requires Resolved(byId) && (exists n :: n in byId && byId[n] == a) && Within(Hops(byId), a, e, k)
    ensures e.id in byId && byId[e.id] == e && k >= 0
  {
    var p :| Connects(Hops(byId), p, a, e) && |p| - 1 <= k;
    if |p| > 1 {
      assert (p[|p| - 2], p[|p| - 1]) in Hops(byId);
      HopEnds(byId, p[|p| - 2], e);
    }
  }

  lemma FinishedWalk(w: Walk)
    requires Good(w) && w.here == [] && w.next == []
    ensures w.seen <= w.byId.Keys
    ensures forall e :: Within(Hops(w.byId), w.start, e, w.maxDepth) <==> exists n :: n in w.seen && w.byId[n] == e
  {
    forall n | n in w.seen ensures n in w.byId.Keys {
      assert n in w.byId;
    }
    forall e | Within(Hops(w.byId), w.start, e, w.maxDepth) ensures e.id in w.seen && w.byId[e.id] == e {
      PathEndsInLookup(w.byId, w.start, e, w.maxDepth);
      NothingMissed(w, e, w.maxDepth);
    }
  }

  lemma StartIsGood(byId: Lookup, root: Id, maxDepth: int)
    requires Resolved(byId) && root in byId
    ensures Good(Walk(byId, byId[root], maxDepth, 0, {}, [root], []))
  {
    var E, a := Hops(byId), byId[root];
    WithinSelf(E, a, 0);
    assert [root][0] in byId && byId[[root][0]] == a;
    assert Leads(byId, [root], a);
    forall e | Within(E, a, e, 0) ensures e == a {
      var p :| Connects(E, p, a, e) && |p| - 1 <= 0;
    }
    forall e | Within(E, a, e, maxDepth) && maxDepth < 0 ensures false {
    }
  }

  // ----- the program -----

  predicate ById(a: Event, b: Event) { a.id < b.id }

  /** What the trace from `root` should hold: events within the depth limit of the event `root` names. */
  ghost predicate Traced(events: seq<Event>, root: Id, maxDepth: int, e: Event) {
    var byId := LookupOf(events);
    root in byId && Within(Hops(byId), byId[root], e, maxDepth)
  }

  datatype Entry = Entry(id: Id, depth: int)

  function Entries(ids: seq<Id>, depth: int): (r: seq<Entry>)
    ensures |r| == |ids|
  {
    if ids == [] then [] else [Entry(ids[0], depth)] + Entries(ids[1..], depth)
  }

  lemma {:induction false} EntriesAdd(s: seq<Id>, t: seq<Id>, depth: int)
    ensures Entries(s + t, depth) == Entries(s, depth) + Entries(t, depth)
  {
    if s == [] {
      assert s + t == t;
    } else {
      assert (s + t)[1..] == s[1..] + t;
      EntriesAdd(s[1..], t, depth);
    }
  }

  /** The queue of a walk: sorted by depth, and spanning at most two depths. */
  function QueueOf(w: Walk): seq<Entry> { Entries(w.here, w.level) + Entries(w.next, w.level + 1) }

  /** The shallower part runs out last, and nothing deeper than one past the limit waits. */
  predicate Shaped(w: Walk) {
    && (w.here == [] ==> w.next == [])
    && (w.next != [] ==> w.level <= w.maxDepth)
    && (w.here != [] ==> w.level == 0 || w.level <= w.maxDepth + 1)
    && w.level <= Bottom(w.maxDepth)
  }

  /** One step, then down a level when this one is done. */
  function Advance(w: Walk): Walk
    requires w.here != []
  {
    if Step(w).here == [] then Descend(Step(w)) else Step(w)
  }

  function Pushed(w: Walk): seq<Id>
    requires w.here != []
  {
    if PassesOver(w) then [] else RelatedIds(w.byId[w.here[0]])
  }

  lemma ShiftAndAppend<T>(head: T, x: seq<T>, y: seq<T>, z: seq<T>)
    ensures (([head] + x) + y)[0] == head && (([head] + x) + y)[1..] + z == x + (y + z)
  {
  }

  lemma QueueShifts(here: seq<Id>, next: seq<Id>, pushed: seq<Id>, d: int)
    requires here != []
    ensures var queue := Entries(here, d) + Entries(next, d + 1);
      && queue != [] && queue[0] == Entry(here[0], d)
      && queue[1..] + Entries(pushed, d + 1) == Entries(here[1..], d) + Entries(next + pushed, d + 1)
  {
    EntriesAdd(next, pushed, d + 1);
    ShiftAndAppend(Entry(here[0], d), Entries(here[1..], d), Entries(next, d + 1), Entries(pushed, d + 1));
  }

  lemma AdvanceIsQueued(w: Walk)
    requires w.here != []
    ensures QueueOf(w) != [] && QueueOf(w)[0] == Entry(w.here[0], w.level)
    ensures QueueOf(Advance(w)) == QueueOf(w)[1..] + Entries(Pushed(w), w.level + 1)
  {
    QueueShifts(w.here, w.next, Pushed(w), w.level);
    var v := Step(w);
    assert w.next + [] == w.next;
    assert v.next == w.next + Pushed(w) && v.here == w.here[1..] && v.level == w.level;
    if v.here == [] {
      assert Entries([], v.level) == [] && Entries([], v.level + 2) == [];
      assert QueueOf(v) == Entries(v.next, v.level + 1) + Entries([], v.level + 2);
    }
  }

  /** No walk goes below this depth. */
  function Bottom(maxDepth: int): nat { if maxDepth < 0 then 1 else maxDepth + 2 }

  /** What one turn of the loop does to the found ids, and why the loop ends. */
  lemma AdvanceMoves(w: Walk)
    requires Shaped(w) && w.here != []
    ensures var v, id := Advance(w), w.here[0];
      && Shaped(v) && v.byId == w.byId && v.maxDepth == w.maxDepth
      && v.seen == (if PassesOver(w) then w.seen else w.seen + {w.byId[id].id})
      && (v.level > w.level || (v.level == w.level && |v.here| < |w.here|))
  {
  }

  ghost predicate Right(w: Walk, root: Id) {
    if root in w.byId then
      w.start == w.byId[root] && (Resolved(w.byId) ==> Good(w))
    else
      w.seen == {} && w.next == [] && forall n :: n in w.here ==> n !in w.byId
  }

  lemma AdvanceIsRight(w: Walk, root: Id)
    requires Right(w, root) && w.here != []
    ensures Right(Advance(w), root)
  {
    if root in w.byId && Resolved(w.byId) {
      StepIsGood(w);
      if Step(w).here == [] {
        DescendIsGood(Step(w));
      }
    }
    var id := w.here[0];
    assert id in w.here;
  }

  /** What the walk has to find. */
  ghost predicate FoundAll(byId: Lookup, root: Id, maxDepth: int, seen: seq<Id>) {
    && (root !in byId ==> seen == [])
    && (Resolved(byId) ==>
         && (forall n :: n in seen ==> n in byId && byId[n].id == n)
         && (root in byId ==>
              forall e :: Within(Hops(byId), byId[root], e, maxDepth) <==> exists n :: n in seen && byId[n] == e))
  }

  lemma EndOfWalk(w: Walk, root: Id, seen: seq<Id>)
    requires Right(w, root) && w.here == [] && w.next == []
    requires forall n :: n in seen <==> n in w.seen
    ensures FoundAll(w.byId, root, w.maxDepth, seen)
  {
    if seen != [] {
      var n := seen[0];
      assert n in w.seen;
    }
    if root in w.byId && Resolved(w.byId) {
      FinishedWalk(w);
      var E := Hops(w.byId);
      forall e ensures Within(E, w.byId[root], e, w.maxDepth) <==> exists n :: n in seen && w.byId[n] == e {
        if Within(E, w.start, e, w.maxDepth) {
          var n :| n in w.seen && w.byId[n] == e;
          assert n in seen;
        }
        if n :| n in seen && w.byId[n] == e {
          assert n in w.seen;
        }
      }
    }
  }

  /** One turn of the loop: an id is passed over, or its event is found and what it refers to is queued. */
  method Turn(byId: Lookup, maxDepth: int, seen: seq<Id>, queue: seq<Entry>, ghost w: Walk)
    returns (found: seq<Id>, waiting: seq<Entry>)
    requires w.byId == byId && w.maxDepth == maxDepth && w.here != [] && queue == QueueOf(w)
    requires Distinct(seen) && forall n :: n in seen <==> n in w.seen
    ensures waiting == QueueOf(Advance(w))
    ensures Distinct(found) && forall n :: n in found <==> n in w.seen || (!PassesOver(w) && n == byId[w.here[0]].id)
  {
    AdvanceIsQueued(w);
    var current := queue[0];
    found, waiting := seen, queue[1..];
    if current.id in seen || current.depth > maxDepth || current.id !in byId {
      assert PassesOver(w) && waiting + Entries([], w.level + 1) == waiting;
      return;
    }
    var e := byId[current.id];
    if e.id !in seen {
      found := seen + [e.id];
    }
    waiting := waiting + Entries(RelatedIds(e), current.depth + 1);
  }

  /**
   * The walk of `traceRecords`. The queue may hold one event under several ids, so an event already found
   * can be expanded again; what ends the walk is that depths never fall and are bounded.
   */
  method WalkIds(byId: Lookup, root: Id, maxDepth: int) returns (seen: seq<Id>)
    ensures Distinct(seen) && FoundAll(byId, root, maxDepth, seen)
  {
    seen := [];
    var queue := [Entry(root, 0)];
    ghost var start := if root in byId then byId[root] else Event(root, [], Observation(root));
    ghost var w := Walk(byId, start, maxDepth, 0, {}, [root], []);
    if root in byId && Resolved(byId) {
      StartIsGood(byId, root, maxDepth);
    }
    while queue != []
      invariant w.byId == byId && w.maxDepth == maxDepth && Right(w, root)
      invariant Distinct(seen) && forall n :: n in seen <==> n in w.seen
      invariant queue == QueueOf(w) && Shaped(w)
      decreases Bottom(maxDepth) - w.level, |w.here|
    {
      seen, queue := Turn(byId, maxDepth, seen, queue, w);
      AdvanceIsRight(w, root);
      AdvanceMoves(w);
      w := Advance(w);
    }
    EndOfWalk(w, root, seen);
  }

  /** `traceRecords`: the events found, ordered by record id. */
  method TraceRecords(events: seq<Event>, root: Id, maxDepth: int) returns (records: seq<Event>)
    ensures IdsAreUnique(events) ==> Ascending(records, ById)
    ensures IdsAreUnique(events) ==> forall e :: e in records <==> Traced(events, root, maxDepth, e)
  {
    var byId := EventLookup(events);
    var seen := WalkIds(byId, root, maxDepth);
    var found: seq<Event> := [];
    for i := 0 to |seen|
      invariant found == FoundEvents(byId, seen[..i])
    {
      assert seen[..i + 1][..i] == seen[..i];
      var id := seen[i];
      if id in byId {
        found := found + [byId[id]];
      }
    }
    assert seen[..|seen|] == seen;
    records := SortBy(found, ById);
    if IdsAreUnique(events) {
      LookupFinds(events);
      FoundInOrder(byId, seen);
    }
  }

  function FoundEvents(byId: Lookup, ids: seq<Id>): seq<Event> {
    if ids == [] then []
    else
      var id := ids[|ids| - 1];
      FoundEvents(byId, ids[..|ids| - 1]) + (if id in byId then [byId[id]] else [])
  }

  lemma {:induction false} FoundEventsFacts(byId: Lookup, ids: seq<Id>)
    requires Distinct(ids) && forall n :: n in ids ==> n in byId && byId[n].id == n
    ensures forall e :: e in FoundEvents(byId, ids) <==> e.id in ids && byId[e.id] == e
    ensures Distinct(FoundEvents(byId, ids))
  {
    if ids != [] {
      var k := |ids| - 1;
      var id := ids[k];
      assert ids == ids[..k] + [id];
      FoundEventsFacts(byId, ids[..k]);
      assert id !in ids[..k];
    }
  }

  lemma FoundInOrder(byId: Lookup, ids: seq<Id>)
    requires Distinct(ids) && forall n :: n in ids ==> n in byId && byId[n].id == n
    ensures var records := SortBy(FoundEvents(byId, ids), ById);
      Ascending(records, ById) && forall e :: e in records <==> e.id in ids && byId[e.id] == e
  {
    FoundEventsFacts(byId, ids);
    var found := FoundEvents(byId, ids);
    forall a, b | a in Elements(found) && b in Elements(found) ensures Apart(ById, a, b) {
      assert a in found && b in found;
    }
    SortOfDistinct(found, ById);
    SortKeeps(found, ById);
  }
}
