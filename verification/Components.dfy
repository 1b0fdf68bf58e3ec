/**
 * Connected components of a set of links: the adjacency map, the worklist search from each root, and
 * the labelling of every vertex with the digest of its sorted component.
 */
module Components {
  import opened Ordering
  import opened Reachability

  /** `a` and `b` are joined by links, followed in either direction. */
  ghost predicate Connected<T(!new)>(E: set<(T, T)>, a: T, b: T) { Reach(BothWays(E), a, b) }

  /** The vertices of `V` in one component with `v`. */
  ghost function Cluster<T(!new)>(V: set<T>, E: set<(T, T)>, v: T): set<T> {
    set u | u in V && Connected(E, v, u)
  }

  /** The component id of `v`: the digest of its sorted component. */
  ghost function ComponentOf<T(!new)>(
    V: set<T>, E: set<(T, T)>, v: T, lt: (T, T) -> bool, digest: seq<T> -> string): string
  {
    digest(OrderBy(Cluster(V, E, v), lt))
  }

  /** No two different components of this graph have the same digest. */
  ghost predicate CollisionFree<T(!new)>(
    V: set<T>, E: set<(T, T)>, lt: (T, T) -> bool, digest: seq<T> -> string)
  {
    forall u, v :: u in V && v in V && ComponentOf(V, E, u, lt, digest) == ComponentOf(V, E, v, lt, digest) ==>
      OrderBy(Cluster(V, E, u), lt) == OrderBy(Cluster(V, E, v), lt)
  }

  lemma ConnectedIsEquivalence<T(!new)>(E: set<(T, T)>, a: T, b: T, c: T)
    ensures Connected(E, a, a)
    ensures Connected(E, a, b) ==> Connected(E, b, a)
    ensures Connected(E, a, b) && Connected(E, b, c) ==> Connected(E, a, c)
  {
    ReachSelf(BothWays(E), a);
    if Connected(E, a, b) {
      ReachSymmetric(E, a, b);
      if Connected(E, b, c) {
        ReachTransitive(BothWays(E), a, b, c);
      }
    }
  }

  lemma SameCluster<T(!new)>(V: set<T>, E: set<(T, T)>, a: T, b: T)
    requires Connected(E, a, b)
    ensures Cluster(V, E, a) == Cluster(V, E, b)
  {
    forall u | u in V ensures Connected(E, a, u) <==> Connected(E, b, u) {
      ConnectedIsEquivalence(E, a, b, u);
      ConnectedIsEquivalence(E, b, a, u);
    }
  }

  lemma ClusterIsListed<T(!new)>(V: set<T>, E: set<(T, T)>, v: T, lt: (T, T) -> bool)
    requires v in V && TotalOrder(lt)
    ensures v in OrderBy(Cluster(V, E, v), lt)
    ensures forall u :: u in OrderBy(Cluster(V, E, v), lt) <==> u in V && Connected(E, v, u)
  {
    ReachSelf(BothWays(E), v);
    OrderByLists(Cluster(V, E, v), lt);
  }

  /** Two vertices get the same component id exactly when they are connected. */
  lemma SameComponentIffConnected<T(!new)>(
    V: set<T>, E: set<(T, T)>, u: T, v: T, lt: (T, T) -> bool, digest: seq<T> -> string)
    requires TotalOrder(lt) && CollisionFree(V, E, lt, digest)
    requires u in V && v in V
    ensures ComponentOf(V, E, u, lt, digest) == ComponentOf(V, E, v, lt, digest) <==> Connected(E, u, v)
  {
    ClusterIsListed(V, E, u, lt);
    ClusterIsListed(V, E, v, lt);
    if Connected(E, u, v) {
      SameCluster(V, E, u, v);
    }
  }

  // ----- the adjacency map -----

  ghost predicate Linked<T>(E: set<(T, T)>, u: T, v: T) { (u, v) in E || (v, u) in E }

  /** `graph` is the adjacency of the links `E` over the vertices `V`. */
  ghost predicate Represents<T(!new)>(graph: map<T, set<T>>, V: set<T>, E: set<(T, T)>) {
    && graph.Keys == V
    && (forall u, v :: Linked(E, u, v) ==> u in V && v in V)
    && (forall u, v :: u in V ==> (v in graph[u] <==> Linked(E, u, v)))
  }

  method Add<T(==,!new)>(graph: map<T, set<T>>, id: T, ghost V: set<T>, ghost E: set<(T, T)>)
    returns (r: map<T, set<T>>)
    requires Represents(graph, V, E)
    ensures Represents(r, V + {id}, E)
  {
    r := if id in graph then graph else graph[id := {}];
    assert r.Keys == V + {id};
  }

  method Link<T(==,!new)>(graph: map<T, set<T>>, left: T, right: T, ghost V: set<T>, ghost E: set<(T, T)>)
    returns (r: map<T, set<T>>)
    requires Represents(graph, V, E)
    ensures Represents(r, V + {left, right}, E + {(left, right)})
  {
    r := Add(graph, left, V, E);
    r := Add(r, right, V + {left}, E);
    assert V + {left} + {right} == V + {left, right};
    r := r[left := r[left] + {right}];
    r := r[right := r[right] + {left}];
    assert forall u, v :: Linked(E + {(left, right)}, u, v) <==>
      Linked(E, u, v) || (u == left && v == right) || (u == right && v == left);
  }

  ghost function Ends<T>(E: set<(T, T)>): set<T> {
    (set l | l in E :: l.0) + (set l | l in E :: l.1)
  }

  lemma EndsGrow<T(!new)>(E: set<(T, T)>, l: (T, T))
    ensures Ends(E + {l}) == Ends(E) + {l.0, l.1}
  {
    forall v ensures v in Ends(E + {l}) <==> v in Ends(E) + {l.0, l.1} {
      if v == l.0 || v == l.1 {
        assert l in E + {l};
      }
    }
  }

  method AddLinks<T(==,!new)>(graph: map<T, set<T>>, links: seq<(T, T)>, ghost V: set<T>, ghost E: set<(T, T)>)
    returns (r: map<T, set<T>>)
    requires Represents(graph, V, E)
    ensures Represents(r, V + Ends(Elements(links)), E + Elements(links))
  {
    r := graph;
    ghost var soFar := {};
    assert V + Ends({}) == V && E + {} == E;
    for i := 0 to |links|
      invariant soFar == Elements(links[..i])
      invariant Represents(r, V + Ends(soFar), E + soFar)
    {
      assert links[..i + 1] == links[..i] + [links[i]];
      var (left, right) := links[i];
      r := Link(r, left, right, V + Ends(soFar), E + soFar);
      EndsGrow(soFar, links[i]);
      assert V + Ends(soFar) + {left, right} == V + Ends(soFar + {links[i]});
      assert E + soFar + {links[i]} == E + (soFar + {links[i]});
      soFar := soFar + {links[i]};
    }
    assert links[..|links|] == links;
  }

  // ----- the component search -----

  ghost predicate Closed<T(!new)>(graph: map<T, set<T>>, S: set<T>) {
    S <= graph.Keys && forall u, v :: u in S && v in graph[u] ==> v in S
  }

  /** A cluster is the least set that holds its root and that no link leaves. */
  lemma ClusterIsLeastClosed<T(!new)>(graph: map<T, set<T>>, E: set<(T, T)>, root: T)
    requires Represents(graph, graph.Keys, E) && root in graph
    ensures var C := Cluster(graph.Keys, E, root);
      && root in C && Closed(graph, C)
      && forall S :: root in S && Closed(graph, S) ==> C <= S
  {
    var C := Cluster(graph.Keys, E, root);
    ReachSelf(BothWays(E), root);
    forall u, v | u in C && v in graph[u] ensures v in C {
      assert Linked(E, u, v);
      ReachEdge(BothWays(E), root, u, v);
    }
    forall S | root in S && Closed(graph, S) ensures C <= S {
      ClosedHoldsCluster(graph, E, root, S);
    }
  }

  lemma ClosedHoldsCluster<T(!new)>(graph: map<T, set<T>>, E: set<(T, T)>, root: T, S: set<T>)
    requires Represents(graph, graph.Keys, E) && Closed(graph, S) && root in S
    ensures Cluster(graph.Keys, E, root) <= S
  {
    forall u, v | (u, v) in BothWays(E) && u in S ensures v in S {
      assert Linked(E, u, v);
    }
    forall v | v in Cluster(graph.Keys, E, root) ensures v in S {
      ClosedUnderReach(BothWays(E), S, root, v);
    }
  }

  /** Links run both ways, so a cluster does not meet whole components that miss its root. */
  lemma ClusterAvoids<T(!new)>(graph: map<T, set<T>>, E: set<(T, T)>, root: T, done: set<T>)
    requires Represents(graph, graph.Keys, E) && root in graph
    requires Closed(graph, done) && root !in done
    ensures Cluster(graph.Keys, E, root) !! done
  {
    var rest := graph.Keys - done;
    forall u, v | u in rest && v in graph[u] ensures v in rest {
      assert Linked(E, u, v) && Linked(E, v, u);
      assert v in graph && u in graph[v];
    }
    ClosedHoldsCluster(graph, E, root, rest);
  }

  /** Pushes, in some order, the neighbours that carry no component yet. */
  method PushNeighbours<T(==,!new)>(neighbours: set<T>, marked: set<T>, pending: seq<T>) returns (pushed: seq<T>)
    ensures forall v :: v in pushed <==> v in pending || (v in neighbours && v !in marked)
  {
    pushed := pending;
    var rest := neighbours;
    while rest != {}
      invariant rest <= neighbours
      invariant forall v :: v in pushed <==> v in pending || (v in neighbours - rest && v !in marked)
      decreases |rest|
    {
      var next :| next in rest;
      if next !in marked {
        pushed := pushed + [next];
      }
      rest := rest - {next};
    }
  }

  /** What the search of the cluster `C` knows while `mine` is explored and `pending` waits. */
  ghost predicate Searching<T(!new)>(graph: map<T, set<T>>, C: set<T>, root: T, mine: set<T>, pending: seq<T>) {
    && mine <= C <= graph.Keys
    && (root in mine || root in pending)
    && (forall v :: v in pending ==> v in C)
    && (forall u, v :: u in mine && v in graph[u] ==> v in mine || v in pending)
  }

  lemma WaitsInside<T(!new)>(graph: map<T, set<T>>, C: set<T>, root: T, mine: set<T>, rest: seq<T>, current: T)
    requires Searching(graph, C, root, mine, rest + [current])
    ensures current in C && current in graph
  {
    assert current in rest + [current];
  }

  lemma SkipStep<T(!new)>(graph: map<T, set<T>>, C: set<T>, root: T, mine: set<T>, rest: seq<T>, current: T)
    requires Searching(graph, C, root, mine, rest + [current]) && current in mine
    ensures Searching(graph, C, root, mine, rest)
  {
    assert forall v :: v in rest + [current] <==> v in rest || v == current;
  }

  lemma VisitStep<T(!new)>(
    graph: map<T, set<T>>, C: set<T>, root: T, mine: set<T>, rest: seq<T>, current: T, pushed: seq<T>)
    requires Closed(graph, C) && Searching(graph, C, root, mine, rest + [current])
    requires current in C && current !in mine
    requires forall v :: v in rest ==> v in pushed
    requires forall v :: v in pushed ==> v in rest || v in graph[current]
    requires forall v :: v in graph[current] ==> v in mine || v == current || v in pushed
    ensures Searching(graph, C, root, mine + {current}, pushed)
    ensures |C - (mine + {current})| < |C - mine|
  {
    assert forall v :: v in rest + [current] <==> v in rest || v == current;
    Shrinks(C - (mine + {current}), C - mine);
  }

  /**
   * The worklist search from `root`, whose cluster is `C`. `done` holds the components found earlier;
   * the result lists the vertices of the cluster, each once. A vertex can wait on the worklist several
   * times, and the search still terminates.
   */
  method Explore<T(==,!new)>(graph: map<T, set<T>>, root: T, done: set<T>, ghost C: set<T>)
    returns (vertices: seq<T>)
    requires Closed(graph, C) && root in C && C !! done
    ensures Distinct(vertices) && root in vertices && forall v :: v in vertices ==> v in C
    ensures Closed(graph, Elements(vertices))
  {
    var pending := [root];
    var marked := done;
    ghost var mine: set<T> := {};
    vertices := [];
    while pending != []
      invariant Distinct(vertices) && Elements(vertices) == mine
      invariant marked == done + mine
      invariant Searching(graph, C, root, mine, pending)
      decreases |C - mine|, |pending|
    {
      var current, rest := pending[|pending| - 1], pending[..|pending| - 1];
      LastSplits(pending);
      WaitsInside(graph, C, root, mine, rest, current);
      if current in marked {
        SkipStep(graph, C, root, mine, rest, current);
        pending := rest;
      } else {
        pending := PushNeighbours(graph[current], marked + {current}, rest);
        VisitStep(graph, C, root, mine, rest, current, pending);
        assert current in mine <==> current in Elements(vertices);
        DistinctAppend(vertices, current);
        ElementsAppend(vertices, current);
        UnionGrows(done, mine, current);
        vertices, mine, marked := vertices + [current], mine + {current}, marked + {current};
      }
    }
    SearchIsDone(graph, C, root, mine);
    assert root in Elements(vertices) && forall v :: v in vertices ==> v in Elements(vertices);
  }

  lemma UnionGrows<T>(A: set<T>, B: set<T>, x: T)
    ensures (A + B) + {x} == A + (B + {x})
  {
  }

  lemma SearchIsDone<T(!new)>(graph: map<T, set<T>>, C: set<T>, root: T, mine: set<T>)
    requires Searching(graph, C, root, mine, [])
    ensures root in mine && mine <= C && Closed(graph, mine)
  {
  }

  method SortedDistinct<T(==,!new)>(listed: seq<T>, lt: (T, T) -> bool, ghost S: set<T>) returns (r: seq<T>)
    requires TotalOrder(lt)
    requires Distinct(listed) && forall x :: x in listed <==> x in S
    ensures r == SortBy(listed, lt) == OrderBy(S, lt)
  {
    r := SortBy(listed, lt);
    SortOfDistinct(listed, lt);
    SortKeeps(listed, lt);
    OrderByIs(S, lt, r);
  }

  /** `[...set].sort(compareRaw)` */
  method SortedSet<T(==,!new)>(S: set<T>, lt: (T, T) -> bool) returns (r: seq<T>)
    requires TotalOrder(lt)
    ensures r == OrderBy(S, lt) && forall x :: x in r <==> x in S
  {
    var rest := S;
    var listed: seq<T> := [];
    while rest != {}
      invariant rest <= S && Distinct(listed)
      invariant forall x :: x in listed <==> x in S - rest
      decreases |rest|
    {
      var x :| x in rest;
      DistinctAppend(listed, x);
      listed := listed + [x];
      rest := rest - {x};
    }
    r := SortedDistinct(listed, lt, S);
    SortKeeps(listed, lt);
  }

  method Assign<T(==,!new)>(component: map<T, string>, vertices: seq<T>, id: string, ghost mine: set<T>)
    returns (r: map<T, string>)
    requires forall v :: v in vertices <==> v in mine
    ensures r.Keys == component.Keys + mine
    ensures forall v :: v in r ==> r[v] == if v in mine then id else component[v]
  {
    r := component;
    for i := 0 to |vertices|
      invariant r.Keys == component.Keys + Elements(vertices[..i])
      invariant forall v :: v in r ==> r[v] == if v in vertices[..i] then id else component[v]
    {
      assert vertices[..i + 1] == vertices[..i] + [vertices[i]];
      r := r[vertices[i] := id];
    }
    assert vertices[..|vertices|] == vertices;
    assert Elements(vertices) == mine;
  }

  /** `clusters[r]` is a component, shared by all its vertices. */
  ghost predicate IsComponent<T(!new)>(graph: map<T, set<T>>, clusters: map<T, set<T>>, r: T) {
    && r in clusters && r in clusters[r] && Closed(graph, clusters[r])
    && clusters[r] <= clusters.Keys
    && forall v :: v in clusters[r] ==> clusters[v] == clusters[r]
  }

  /** A set that no link leaves holds all of a component or nothing of it. */
  ghost predicate AllOrNothing<T(!new)>(graph: map<T, set<T>>, clusters: map<T, set<T>>, r: T, S: set<T>) {
    r in clusters && (Closed(graph, S) ==> if r in S then clusters[r] <= S else clusters[r] !! S)
  }

  ghost predicate Partitions<T(!new)>(graph: map<T, set<T>>, clusters: map<T, set<T>>) {
    && clusters.Keys == graph.Keys
    && (forall r {:trigger IsComponent(graph, clusters, r)} :: r in graph ==> IsComponent(graph, clusters, r))
    && (forall r, S {:trigger AllOrNothing(graph, clusters, r, S)} ::
          r in graph ==> AllOrNothing(graph, clusters, r, S))
  }

  ghost function Clusters<T(!new)>(V: set<T>, E: set<(T, T)>): map<T, set<T>> {
    map v | v in V :: Cluster(V, E, v)
  }

  lemma ClustersPartition<T(!new)>(graph: map<T, set<T>>, E: set<(T, T)>)
    requires Represents(graph, graph.Keys, E)
    ensures Partitions(graph, Clusters(graph.Keys, E))
  {
    var clusters := Clusters(graph.Keys, E);
    forall r | r in graph ensures IsComponent(graph, clusters, r) {
      ClusterIsLeastClosed(graph, E, r);
      forall v | v in clusters[r] ensures clusters[v] == clusters[r] {
        SameCluster(graph.Keys, E, r, v);
      }
    }
    forall r, S | r in graph ensures AllOrNothing(graph, clusters, r, S) {
      if Closed(graph, S) && r in S {
        ClosedHoldsCluster(graph, E, r, S);
      } else if Closed(graph, S) {
        ClusterAvoids(graph, E, r, S);
      }
    }
  }

  ghost predicate NamedByDigest<T(!new)>(
    clusters: map<T, set<T>>, component: map<T, string>, lt: (T, T) -> bool, digest: seq<T> -> string, v: T)
  {
    v in clusters && v in component && component[v] == digest(OrderBy(clusters[v], lt))
  }

  /** Whole components are labelled, each vertex with the digest of its sorted component. */
  ghost predicate Labelled<T(!new)>(
    graph: map<T, set<T>>, clusters: map<T, set<T>>, component: map<T, string>, lt: (T, T) -> bool,
    digest: seq<T> -> string)
  {
    && Closed(graph, component.Keys)
    && forall v {:trigger NamedByDigest(clusters, component, lt, digest, v)} :: v in component ==>
        NamedByDigest(clusters, component, lt, digest, v)
  }

  lemma RootIsFresh<T(!new)>(graph: map<T, set<T>>, clusters: map<T, set<T>>, root: T, done: set<T>)
    requires Partitions(graph, clusters) && root in graph && root !in done && Closed(graph, done)
    ensures root in clusters && root in clusters[root] && Closed(graph, clusters[root]) && clusters[root] !! done
  {
    assert IsComponent(graph, clusters, root) && AllOrNothing(graph, clusters, root, done);
  }

  lemma SearchFindsComponent<T(!new)>(graph: map<T, set<T>>, clusters: map<T, set<T>>, root: T, mine: set<T>)
    requires Partitions(graph, clusters) && root in graph && root in clusters
    requires root in mine && mine <= clusters[root] && Closed(graph, mine)
    ensures mine == clusters[root]
  {
    assert AllOrNothing(graph, clusters, root, mine);
  }

  lemma LabellingExtends<T(!new)>(
    graph: map<T, set<T>>, clusters: map<T, set<T>>, component: map<T, string>, r: map<T, string>, root: T,
    lt: (T, T) -> bool, digest: seq<T> -> string)
    requires Partitions(graph, clusters) && Labelled(graph, clusters, component, lt, digest)
    requires root in graph && root in clusters && r.Keys == component.Keys + clusters[root]
    requires forall v :: v in r ==>
      r[v] == if v in clusters[root] then digest(OrderBy(clusters[root], lt)) else component[v]
    ensures Labelled(graph, clusters, r, lt, digest)
  {
    assert IsComponent(graph, clusters, root);
    UnionIsClosed(graph, component.Keys, clusters[root]);
    forall v | v in r ensures NamedByDigest(clusters, r, lt, digest, v) {
      assert v !in clusters[root] ==> NamedByDigest(clusters, component, lt, digest, v);
    }
  }

  method LabelComponent<T(==,!new)>(
    graph: map<T, set<T>>, root: T, component: map<T, string>, lt: (T, T) -> bool, digest: seq<T> -> string,
    ghost clusters: map<T, set<T>>)
    returns (r: map<T, string>)
    requires TotalOrder(lt) && Partitions(graph, clusters)
    requires Labelled(graph, clusters, component, lt, digest)
    requires root in graph && root !in component
    ensures Labelled(graph, clusters, r, lt, digest)
    ensures component.Keys + {root} <= r.Keys
  {
    RootIsFresh(graph, clusters, root, component.Keys);
    var vertices := Explore(graph, root, component.Keys, clusters[root]);
    ghost var mine := Elements(vertices);
    SearchFindsComponent(graph, clusters, root, mine);
    var sorted := SortedDistinct(vertices, lt, mine);
    r := Assign(component, vertices, digest(sorted), mine);
    LabellingExtends(graph, clusters, component, r, root, lt, digest);
  }

  lemma UnionIsClosed<T(!new)>(graph: map<T, set<T>>, A: set<T>, B: set<T>)
    requires Closed(graph, A) && Closed(graph, B)
    ensures Closed(graph, A + B)
  {
  }

  /** Every vertex gets the digest of the sorted list of the vertices connected to it. */
  method LabelComponents<T(==,!new)>(
    graph: map<T, set<T>>, lt: (T, T) -> bool, digest: seq<T> -> string, ghost clusters: map<T, set<T>>)
    returns (component: map<T, string>)
    requires TotalOrder(lt) && Partitions(graph, clusters)
    ensures component.Keys == graph.Keys
    ensures forall v {:trigger NamedByDigest(clusters, component, lt, digest, v)} :: v in graph ==>
      NamedByDigest(clusters, component, lt, digest, v)
  {
    var roots := SortedSet(graph.Keys, lt);
    component := map[];
    for k := 0 to |roots|
      invariant Labelled(graph, clusters, component, lt, digest)
      invariant Elements(roots[..k]) <= component.Keys
    {
      ElementsOfPrefix(roots, k);
      if roots[k] !in component {
        component := LabelComponent(graph, roots[k], component, lt, digest, clusters);
      }
    }
    assert roots[..|roots|] == roots;
    assert Elements(roots) == graph.Keys;
  }
}
