/** Directed paths, and the worklist search `reaches` inside the plan builder. */
module Reachability {
  import opened Ordering

  ghost predicate IsPath<V>(E: set<(V, V)>, p: seq<V>) {
    && p != []
    && forall i :: 0 <= i < |p| - 1 ==> (p[i], p[i + 1]) in E
  }

  ghost predicate Connects<V>(E: set<(V, V)>, p: seq<V>, a: V, b: V) {
    IsPath(E, p) && p[0] == a && p[|p| - 1] == b
  }

  /** `b` can be reached from `a` by zero or more edges. */
  ghost predicate Reach<V(!new)>(E: set<(V, V)>, a: V, b: V) {
    exists p :: Connects(E, p, a, b)
  }

  /** Some vertex lies on a closed path of at least one edge. */
  ghost predicate Cyclic<V(!new)>(E: set<(V, V)>) {
    exists a, b :: (a, b) in E && Reach(E, b, a)
  }

  lemma ReachSelf<V(!new)>(E: set<(V, V)>, a: V)
    ensures Reach(E, a, a)
  {
    assert Connects(E, [a], a, a);
  }

  lemma ReachEdge<V(!new)>(E: set<(V, V)>, a: V, b: V, c: V)
    requires Reach(E, a, b) && (b, c) in E
    ensures Reach(E, a, c)
  {
    var p :| Connects(E, p, a, b);
    assert Connects(E, p + [c], a, c);
  }

  lemma ReachTransitive<V(!new)>(E: set<(V, V)>, a: V, b: V, c: V)
    requires Reach(E, a, b) && Reach(E, b, c)
    ensures Reach(E, a, c)
  {
    var p :| Connects(E, p, a, b);
    var q :| Connects(E, q, b, c);
    var r := p + q[1..];
    forall i | 0 <= i < |r| - 1 ensures (r[i], r[i + 1]) in E {
      if i >= |p| - 1 {
        var k := i - (|p| - 1);
        assert r[i] == q[k] && r[i + 1] == q[k + 1];
      }
    }
    assert Connects(E, r, a, c);
  }

  lemma ReachMonotone<V(!new)>(E: set<(V, V)>, F: set<(V, V)>, a: V, b: V)
    requires E <= F && Reach(E, a, b)
    ensures Reach(F, a, b)
  {
    var p :| Connects(E, p, a, b);
    assert Connects(F, p, a, b);
  }

  /** A set of vertices that no edge leaves holds everything reachable from it. */
  lemma {:induction false} PathStaysInside<V>(E: set<(V, V)>, p: seq<V>, S: set<V>)
    requires IsPath(E, p) && p[0] in S
    requires forall a, b :: (a, b) in E && a in S ==> b in S
    ensures p[|p| - 1] in S
  {
    if |p| > 1 {
      assert (p[0], p[1]) in E;
      var q := p[1..];
      assert forall i :: 0 <= i < |q| ==> q[i] == p[i + 1];
      PathStaysInside(E, q, S);
    }
  }

  lemma ClosedUnderReach<V(!new)>(E: set<(V, V)>, S: set<V>, a: V, b: V)
    requires a in S && Reach(E, a, b)
    requires forall u, v :: (u, v) in E && u in S ==> v in S
    ensures b in S
  {
    var p :| Connects(E, p, a, b);
    PathStaysInside(E, p, S);
  }

  /** A path over `E + F` either stays in `E` or can be cut at its last edge of `F`. */
  lemma {:induction false} LastNewEdge<V(!new)>(E: set<(V, V)>, F: set<(V, V)>, p: seq<V>)
    requires IsPath(E + F, p)
    ensures Reach(E, p[0], p[|p| - 1])
         || exists f :: f in F && Reach(E + F, p[0], f.0) && Reach(E, f.1, p[|p| - 1])
  {
    if |p| == 1 {
      ReachSelf(E, p[0]);
    } else {
      var n := |p| - 1;
      var q := p[..n];
      assert (p[n - 1], p[n]) in E + F;
      LastNewEdge(E, F, q);
      if (p[n - 1], p[n]) in E {
        if Reach(E, p[0], p[n - 1]) {
          ReachEdge(E, p[0], p[n - 1], p[n]);
        } else {
          var f :| f in F && Reach(E + F, p[0], f.0) && Reach(E, f.1, p[n - 1]);
          ReachEdge(E, f.1, p[n - 1], p[n]);
        }
      } else {
        var f := (p[n - 1], p[n]);
        assert Connects(E + F, q, p[0], f.0);
        ReachSelf(E, p[n]);
      }
    }
  }

  /**
   * Adding edges to an acyclic graph keeps it acyclic exactly when no added edge can be closed
   * into a cycle by a path of the enlarged graph.
   */
  lemma AddingEdgesKeepsAcyclic<V(!new)>(E: set<(V, V)>, F: set<(V, V)>)
    requires !Cyclic(E)
    ensures !Cyclic(E + F) <==> forall f :: f in F ==> !Reach(E + F, f.1, f.0)
  {
    if Cyclic(E + F) {
      var a, b :| (a, b) in E + F && Reach(E + F, b, a);
      if (a, b) in F {
        var f := (a, b);
        assert f in F && Reach(E + F, f.1, f.0);
      } else {
        var p :| Connects(E + F, p, b, a);
        LastNewEdge(E, F, p);
        assert !Reach(E, b, a);
        var f :| f in F && Reach(E + F, b, f.0) && Reach(E, f.1, a);
        ReachMonotone(E, E + F, f.1, a);
        ReachEdge(E + F, f.1, a, b);
        ReachTransitive(E + F, f.1, b, f.0);
        assert Reach(E + F, f.1, f.0);
      }
    } else {
      forall f | f in F ensures !Reach(E + F, f.1, f.0) {
        assert (f.0, f.1) in E + F;
      }
    }
  }

  /** `(u, w)` is an edge both of whose directions are allowed. */
  ghost function BothWays<V>(E: set<(V, V)>): set<(V, V)> {
    E + set e | e in E :: (e.1, e.0)
  }

  lemma {:induction false} PathReverses<V(!new)>(E: set<(V, V)>, p: seq<V>)
    requires IsPath(BothWays(E), p)
    ensures Reach(BothWays(E), p[|p| - 1], p[0])
  {
    if |p| == 1 {
      ReachSelf(BothWays(E), p[0]);
    } else {
      var q := p[1..];
      assert forall i :: 0 <= i < |q| ==> q[i] == p[i + 1];
      PathReverses(E, q);
      assert (p[0], p[1]) in BothWays(E);
      assert (p[1], p[0]) in BothWays(E);
      ReachEdge(BothWays(E), p[|p| - 1], p[1], p[0]);
    }
  }

  lemma ReachSymmetric<V(!new)>(E: set<(V, V)>, a: V, b: V)
    requires Reach(BothWays(E), a, b)
    ensures Reach(BothWays(E), b, a)
  {
    var p :| Connects(BothWays(E), p, a, b);
    PathReverses(E, p);
  }

  /** Pushes the target of every edge that leaves `current`. */
  method PushSuccessors<V(==,!new)>(edges: seq<(V, V)>, current: V, pending: seq<V>) returns (pushed: seq<V>)
    ensures forall v :: v in pushed <==> v in pending || (current, v) in edges
  {
    pushed := pending;
    for i := 0 to |edges|
      invariant forall v :: v in pushed <==> v in pending || (current, v) in edges[..i]
    {
      assert edges[..i + 1] == edges[..i] + [edges[i]];
      if edges[i].0 == current {
        pushed := pushed + [edges[i].1];
      }
    }
    assert edges[..|edges|] == edges;
  }

  ghost function Endpoints<V>(edges: seq<(V, V)>, start: V): (S: set<V>)
    ensures start in S && forall e :: e in edges ==> e.1 in S
  {
    {start} + set e | e in edges :: e.1
  }

  /**
   * The depth-first search of the plan builder. Vertices may be pushed several times; the search
   * answers `true` exactly when a path exists, and always terminates.
   */
  method Reaches<V(==,!new)>(edges: seq<(V, V)>, start: V, goal: V) returns (found: bool)
    ensures found <==> Reach(Elements(edges), start, goal)
  {
    ghost var E := Elements(edges);
    ghost var All := Endpoints(edges, start);
    var visited: set<V> := {};
    var pending := [start];
    ReachSelf(E, start);
    while pending != []
      invariant forall v :: v in visited || v in pending ==> v in All && Reach(E, start, v)
      invariant start in visited || start in pending
      invariant forall u, v :: u in visited && (u, v) in E ==> v in visited || v in pending
      invariant goal !in visited
      decreases |All - visited|, |pending|
    {
      var current, rest := pending[|pending| - 1], pending[..|pending| - 1];
      LastSplits(pending);
      if current == goal {
        return true;
      }
      if current in visited {
        pending := rest;
      } else {
        pending := PushSuccessors(edges, current, rest);
        forall v | (current, v) in E ensures v in All && Reach(E, start, v) {
          assert (current, v) in edges;
          ReachEdge(E, start, current, v);
        }
        Shrinks(All - (visited + {current}), All - visited);
        visited := visited + {current};
      }
    }
    if Reach(E, start, goal) {
      ClosedUnderReach(E, visited, start, goal);
    }
    return false;
  }

  lemma Shrinks<T>(A: set<T>, B: set<T>)
    requires A < B
    ensures |A| < |B|
  {
    assert B == A + (B - A);
    assert B - A != {};
  }
}
