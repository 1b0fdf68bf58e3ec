/** What a trace holds, told from the events themselves: what each kind cites, and which event an id denotes. */
module TraceContents {
  import opened Wrappers
  import opened Ordering
  import opened Reachability
  import opened Trace

  /** The event mentions this id as something it rests on or acts on. */
  predicate Cites(e: Event, r: Id) {
    || r in e.provenance
    || (e.body.Claim? && r in e.body.support)
    || (e.body.AcceptanceDecision? && r in e.body.claimRefs)
    || (e.body.Supersession? && (r == e.body.supersedes || e.body.replacement == Some(r)))
  }

  /** The second name of the event, from its payload. */
  predicate CalledAlso(e: Event, r: Id) {
    match e.body
    case EvidenceArtifact(artifact) => r == artifact
    case Observation(observation) => r == observation
    case Claim(claim, _) => r == claim
    case AcceptanceDecision(decision, _) => r == decision
    case Supersession(supersession, _, _) => r == supersession
  }

  /** The id denotes this event: as its own id, or as a second name that no later event has. */
  predicate DenotesAt(events: seq<Event>, r: Id, i: nat)
    requires i < |events|
  {
    events[i].id == r || (CalledAlso(events[i], r) && forall j :: i < j < |events| ==> !CalledAlso(events[j], r))
  }

  predicate Denotes(events: seq<Event>, r: Id, e: Event) {
    exists i: nat :: i < |events| && events[i] == e && DenotesAt(events, r, i)
  }

  ghost predicate Hop(events: seq<Event>, a: Event, b: Event) {
    a in events && exists r :: Cites(a, r) && Denotes(events, r, b)
  }

  /** From the event that `root` denotes, `e` is at most `depth` hops away. */
  ghost predicate InTrace(events: seq<Event>, root: Id, depth: int, e: Event) {
    exists p: seq<Event> ::
      && p != [] && |p| - 1 <= depth && p[|p| - 1] == e && Denotes(events, root, p[0])
      && forall i :: 0 <= i < |p| - 1 ==> Hop(events, p[i], p[i + 1])
  }

  lemma {:induction false} DenotesIff(events: seq<Event>, r: Id, e: Event)
    requires IdsAreUnique(events)
    ensures Denotes(events, r, e) <==> r in LookupOf(events) && LookupOf(events)[r] == e
  {
    if events != [] {
      var n := |events| - 1;
      DenotesIff(events[..n], r, e);
      if events[n].id == r || CalledAlso(events[n], r) {
        assert DenotesAt(events, r, n);
        OnlyLastDenotes(events, r, e);
      } else {
        EarlierDenotes(events, r, e);
      }
    }
  }

  lemma OnlyLastDenotes(events: seq<Event>, r: Id, e: Event)
    requires events != [] && IdsAreUnique(events)
    requires var last := events[|events| - 1]; last.id == r || CalledAlso(last, r)
    ensures Denotes(events, r, e) <==> e == events[|events| - 1]
  {
    var n := |events| - 1;
    assert DenotesAt(events, r, n);
    forall i: nat | i < n ensures !DenotesAt(events, r, i) {
      assert events[i].id != events[n].id && events[i].id != Alias(events[n]) && events[n].id != Alias(events[i]);
    }
  }

  lemma EarlierDenotes(events: seq<Event>, r: Id, e: Event)
    requires events != []
    requires var last := events[|events| - 1]; last.id != r && !CalledAlso(last, r)
    ensures Denotes(events, r, e) <==> Denotes(events[..|events| - 1], r, e)
  {
    var n := |events| - 1;
    forall i: nat | i < n ensures DenotesAt(events[..n], r, i) <==> DenotesAt(events, r, i) {
      forall j | i < j < n ensures events[..n][j] == events[j] {
      }
    }
    if Denotes(events[..n], r, e) {
      var i: nat :| i < n && events[..n][i] == e && DenotesAt(events[..n], r, i);
      assert events[i] == e && DenotesAt(events, r, i);
    }
  }

  lemma CitesIff(e: Event, r: Id)
    ensures Cites(e, r) <==> r in References(e)
  {
  }

  lemma HopIff(events: seq<Event>, a: Event, b: Event)
    requires IdsAreUnique(events)
    ensures Hop(events, a, b) <==> (a, b) in Hops(LookupOf(events))
  {
    var byId := LookupOf(events);
    LookupFinds(events);
    if Hop(events, a, b) {
      var r :| Cites(a, r) && Denotes(events, r, b);
      DenotesIff(events, r, b);
      CitesIff(a, r);
      assert a.id in byId && byId[a.id] == a;
    }
    if (a, b) in Hops(byId) {
      var n, r :| n in byId && r in References(byId[n]) && r in byId && byId[n] == a && byId[r] == b;
      CitesIff(a, r);
      DenotesIff(events, r, b);
    }
  }

  /**
   * The records of a trace are, in id order, exactly the events that can be reached from the one the root id
   * denotes by at most `depth` citations, each followed to the event that the cited id denotes.
   */
  lemma TraceIs(events: seq<Event>, root: Id, depth: int, e: Event)
    requires IdsAreUnique(events)
    ensures Traced(events, root, depth, e) <==> InTrace(events, root, depth, e)
  {
    var byId := LookupOf(events);
    forall a, b ensures Hop(events, a, b) <==> (a, b) in Hops(byId) {
      HopIff(events, a, b);
    }
    if Traced(events, root, depth, e) {
      var p :| Connects(Hops(byId), p, byId[root], e) && |p| - 1 <= depth;
      DenotesIff(events, root, p[0]);
      assert forall i :: 0 <= i < |p| - 1 ==> Hop(events, p[i], p[i + 1]);
    }
    if InTrace(events, root, depth, e) {
      var p: seq<Event> :| p != [] && |p| - 1 <= depth && p[|p| - 1] == e && Denotes(events, root, p[0])
        && forall i :: 0 <= i < |p| - 1 ==> Hop(events, p[i], p[i + 1]);
      DenotesIff(events, root, p[0]);
      assert Connects(Hops(byId), p, byId[root], e);
    }
  }
}
