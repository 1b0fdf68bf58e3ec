/** Splitting the entries of a plan into connected components of the events they mention. */
module Partition {
  import opened Wrappers
  import opened Ordering
  import opened Text
  import opened Components
  import opened ReconciliationModel

  type Digest = seq<Id> -> string

  /** `candidates.find(...)`: the first candidate with this source. */
  function FirstCandidate(cs: seq<Candidate>, source: Id): Option<Candidate> {
    if cs == [] then None
    else if cs[0].source == source then Some(cs[0])
    else FirstCandidate(cs[1..], source)
  }

  /** The links one entry contributes: target and replacement, then lineage, then supersession relations. */
  function LinkList(b: Base, c: Option<Candidate>): seq<(Id, Id)> {
    (if b.target.Some? then [(b.source, b.target.value)] else [])
    + (if b.replacement.Some? then [(b.source, b.replacement.value)] else [])
    + (if c.None? then [] else
         seq(|c.value.lineage|, i requires 0 <= i < |c.value.lineage| => (b.source, c.value.lineage[i]))
         + c.value.relations)
  }

  /** Every lineage and relation id the links of an entry mention is an event id. */
  predicate MentionsEvents(c: Option<Candidate>) {
    c.Some? ==>
      && (forall i :: 0 <= i < |c.value.lineage| ==> IsEventId(c.value.lineage[i]))
      && (forall i :: 0 <= i < |c.value.relations| ==>
            IsEventId(c.value.relations[i].0) && IsEventId(c.value.relations[i].1))
  }

  ghost predicate Mentionable(bases: seq<Base>, cs: seq<Candidate>) {
    forall b :: b in bases ==> MentionsEvents(FirstCandidate(cs, b.source))
  }

  ghost function Links(bases: seq<Base>, cs: seq<Candidate>): set<(Id, Id)> {
    set b, l | b in bases && l in LinkList(b, FirstCandidate(cs, b.source)) :: l
  }

  ghost function Vertices(bases: seq<Base>, cs: seq<Candidate>): set<Id> {
    (set b | b in bases :: b.source) + Ends(Links(bases, cs))
  }

  ghost function ComponentId(bases: seq<Base>, cs: seq<Candidate>, source: Id, digest: Digest): string {
    ComponentOf(Vertices(bases, cs), Links(bases, cs), source, Less, digest)
  }

  /** The source events of two entries are joined by target, replacement, lineage or supersession links. */
  ghost predicate SourcesConnected(bases: seq<Base>, cs: seq<Candidate>, a: Id, b: Id) {
    Connected(Links(bases, cs), a, b)
  }

  /** One step of building: the vertices and links of the first `i + 1` entries. */
  lemma EntryExtends(bases: seq<Base>, cs: seq<Candidate>, i: nat)
    requires i < |bases|
    ensures var b := bases[i];
      var L := Elements(LinkList(b, FirstCandidate(cs, b.source)));
      && Links(bases[..i + 1], cs) == Links(bases[..i], cs) + L
      && Vertices(bases[..i + 1], cs) == Vertices(bases[..i], cs) + {b.source} + Ends(L)
  {
    var b := bases[i];
    var L := Elements(LinkList(b, FirstCandidate(cs, b.source)));
    var before, after := bases[..i], bases[..i + 1];
    assert after == before + [b];
    assert forall x :: x in after <==> x in before || x == b;
    LinksExtend(before, b, cs);
    EndsUnion(Links(before, cs), L);
    assert (set x | x in after :: x.source) == (set x | x in before :: x.source) + {b.source};
  }

  lemma LinksExtend(before: seq<Base>, b: Base, cs: seq<Candidate>)
    ensures Links(before + [b], cs) == Links(before, cs) + Elements(LinkList(b, FirstCandidate(cs, b.source)))
  {
    assert forall x :: x in before + [b] <==> x in before || x == b;
  }

  lemma EndsUnion(E: set<(Id, Id)>, F: set<(Id, Id)>)
    ensures Ends(E + F) == Ends(E) + Ends(F)
  {
    forall v ensures v in Ends(E + F) <==> v in Ends(E) + Ends(F) {
    }
  }

  method BuildGraph(bases: seq<Base>, cs: seq<Candidate>) returns (r: Option<map<Id, set<Id>>>)
    ensures r.Some? <==> Mentionable(bases, cs)
    ensures r.Some? ==> Represents(r.value, Vertices(bases, cs), Links(bases, cs))
  {
    var graph: map<Id, set<Id>> := map[];
    for i := 0 to |bases|
      invariant Mentionable(bases[..i], cs)
      invariant Represents(graph, Vertices(bases[..i], cs), Links(bases[..i], cs))
    {
      var b := bases[i];
      assert bases[..i + 1] == bases[..i] + [b];
      var c := FirstCandidate(cs, b.source);
      if !MentionsEvents(c) {
        assert b in bases;
        return None;
      }
      EntryExtends(bases, cs, i);
      ghost var V, E := Vertices(bases[..i], cs), Links(bases[..i], cs);
      graph := Add(graph, b.source, V, E);
      graph := AddLinks(graph, LinkList(b, c), V + {b.source}, E);
    }
    assert bases[..|bases|] == bases;
    return Some(graph);
  }

  /**
   * `partitionReconciliationComponents`: fails exactly when some link mentions a malformed id, and
   * otherwise names, for each entry, the digest of the events connected to its source.
   */
  method PartitionComponents(bases: seq<Base>, cs: seq<Candidate>, digest: Digest)
    returns (r: Result<seq<string>, BuildError>)
    ensures r.Ok? <==> Mentionable(bases, cs)
    ensures r.Ok? ==> |r.value| == |bases|
    ensures r.Ok? ==> forall i :: 0 <= i < |bases| ==> r.value[i] == ComponentId(bases, cs, bases[i].source, digest)
    ensures r.Err? ==> r.error == InvalidIdentifier
  {
    var built := BuildGraph(bases, cs);
    if built.None? {
      return Err(InvalidIdentifier);
    }
    LessOrders();
    ghost var clusters := Clusters(Vertices(bases, cs), Links(bases, cs));
    ClustersPartition(built.value, Links(bases, cs));
    LessOrders();
    var component := LabelComponents(built.value, Less, digest, clusters);
    assert forall b :: b in bases ==> b.source in component;
    var ids := LookUp(bases, component);
    forall i | 0 <= i < |bases| ensures ids[i] == ComponentId(bases, cs, bases[i].source, digest) {
      assert bases[i] in bases;
      assert NamedByDigest(clusters, component, Less, digest, bases[i].source);
    }
    return Ok(ids);
  }

  /** `entries.map((entry) => componentByVertex.get(entry.source_event_id))` */
  method LookUp(bases: seq<Base>, component: map<Id, string>) returns (ids: seq<string>)
    requires forall b :: b in bases ==> b.source in component
    ensures |ids| == |bases| && forall i :: 0 <= i < |bases| ==> ids[i] == component[bases[i].source]
  {
    ids := [];
    for i := 0 to |bases|
      invariant |ids| == i && forall j :: 0 <= j < i ==> ids[j] == component[bases[j].source]
    {
      ids := ids + [component[bases[i].source]];
    }
  }

  /** Two entries get the same component id exactly when their source events are connected. */
  lemma EntriesShareComponentIffConnected(bases: seq<Base>, cs: seq<Candidate>, i: nat, j: nat, digest: Digest)
    requires i < |bases| && j < |bases|
    requires CollisionFree(Vertices(bases, cs), Links(bases, cs), Less, digest)
    ensures ComponentId(bases, cs, bases[i].source, digest) == ComponentId(bases, cs, bases[j].source, digest)
      <==> SourcesConnected(bases, cs, bases[i].source, bases[j].source)
  {
    LessOrders();
    assert bases[i] in bases && bases[j] in bases;
    SameComponentIffConnected(
      Vertices(bases, cs), Links(bases, cs), bases[i].source, bases[j].source, Less, digest);
  }
}
