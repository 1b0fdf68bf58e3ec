/** Sorting: JavaScript's stable `sort` with a comparator, and SQL's `ORDER BY` over the rows of a table. */
module Ordering {
  function Min(a: int, b: int): int { if a < b then a else b }

  function Max(a: int, b: int): int { if a < b then b else a }

  /** The laws of a consistent comparator, at three elements: ties form classes, and classes are ranked. */
  ghost predicate Ranks<T>(lt: (T, T) -> bool, a: T, b: T, c: T) {
    && !lt(a, a)
    && (lt(a, b) && lt(b, c) ==> lt(a, c))
    && (lt(a, c) ==> lt(a, b) || lt(b, c))
  }

  ghost predicate WeakOrder<T(!new)>(lt: (T, T) -> bool) {
    forall a, b, c :: Ranks(lt, a, b, c)
  }

  ghost predicate Apart<T>(lt: (T, T) -> bool, a: T, b: T) {
    a == b || lt(a, b) || lt(b, a)
  }

  /** No two different elements of `S` tie. */
  ghost predicate Separates<T(!new)>(lt: (T, T) -> bool, S: set<T>) {
    forall a, b :: a in S && b in S ==> Apart(lt, a, b)
  }

  ghost predicate TotalOrder<T(!new)>(lt: (T, T) -> bool) {
    WeakOrder(lt) && forall a, b :: Apart(lt, a, b)
  }

  ghost predicate NonDescending<T>(s: seq<T>, lt: (T, T) -> bool) {
    forall i, j :: 0 <= i < j < |s| ==> !lt(s[j], s[i])
  }

  ghost predicate Ascending<T>(s: seq<T>, lt: (T, T) -> bool) {
    forall i, j :: 0 <= i < j < |s| ==> lt(s[i], s[j])
  }

  /** Each element strictly precedes the next, as a validator checks it. */
  ghost predicate StepsUp<T>(s: seq<T>, lt: (T, T) -> bool) {
    forall i :: 0 < i < |s| ==> lt(s[i - 1], s[i])
  }

  function Elements<T(==)>(s: seq<T>): set<T> {
    set x | x in s
  }

  predicate Distinct<T(==)>(s: seq<T>) {
    forall i, j :: 0 <= i < j < |s| ==> s[i] != s[j]
  }

  lemma LastSplits<T>(s: seq<T>)
    requires s != []
    ensures s == s[..|s| - 1] + [s[|s| - 1]]
  {
  }

  lemma DistinctAppend<T>(s: seq<T>, x: T)
    requires Distinct(s) && x !in s
    ensures Distinct(s + [x])
  {
  }

  lemma ElementsAppend<T>(s: seq<T>, x: T)
    ensures Elements(s + [x]) == Elements(s) + {x}
  {
  }

  lemma ElementsOfPrefix<T>(s: seq<T>, k: nat)
    requires k < |s|
    ensures Elements(s[..k + 1]) == Elements(s[..k]) + {s[k]}
  {
    assert s[..k + 1] == s[..k] + [s[k]];
    ElementsAppend(s[..k], s[k]);
  }

  /** Places `x` before every element it ties with. */
  function Insert<T>(x: T, s: seq<T>, lt: (T, T) -> bool): seq<T> {
    if s == [] || !lt(s[0], x) then [x] + s else [s[0]] + Insert(x, s[1..], lt)
  }

  /** The stable sort of `s`. */
  function SortBy<T>(s: seq<T>, lt: (T, T) -> bool): seq<T> {
    if s == [] then [] else Insert(s[0], SortBy(s[1..], lt), lt)
  }

  lemma {:induction false} InsertKeeps<T>(x: T, s: seq<T>, lt: (T, T) -> bool)
    ensures multiset(Insert(x, s, lt)) == multiset{x} + multiset(s)
  {
    if s != [] && lt(s[0], x) {
      InsertKeeps(x, s[1..], lt);
      assert s == [s[0]] + s[1..];
    }
  }

  lemma {:induction false} SortKeeps<T>(s: seq<T>, lt: (T, T) -> bool)
    ensures multiset(SortBy(s, lt)) == multiset(s)
    ensures |SortBy(s, lt)| == |s|
    ensures forall x :: x in SortBy(s, lt) <==> x in s
  {
    if s != [] {
      SortKeeps(s[1..], lt);
      InsertKeeps(s[0], SortBy(s[1..], lt), lt);
      assert s == [s[0]] + s[1..];
    }
    var r := SortBy(s, lt);
    assert |r| == |multiset(r)| == |multiset(s)|;
    forall x ensures x in r <==> x in s {
      assert x in r <==> x in multiset(r);
      assert x in s <==> x in multiset(s);
    }
  }

  lemma {:induction false} InsertOrders<T(!new)>(x: T, s: seq<T>, lt: (T, T) -> bool)
    requires WeakOrder(lt) && NonDescending(s, lt)
    ensures NonDescending(Insert(x, s, lt), lt)
  {
    if s == [] {
    } else if !lt(s[0], x) {
      forall j | 0 <= j < |s| ensures !lt(s[j], x) {
        assert j > 0 ==> !lt(s[j], s[0]);
        assert Ranks(lt, s[j], s[0], x);
      }
    } else {
      InsertOrders(x, s[1..], lt);
      InsertKeeps(x, s[1..], lt);
      var r := Insert(x, s[1..], lt);
      forall j | 0 <= j < |r| ensures !lt(r[j], s[0]) {
        assert r[j] in multiset(r);
        assert r[j] == x || r[j] in s[1..];
        assert Ranks(lt, s[0], x, s[0]);
      }
    }
  }

  lemma {:induction false} SortOrders<T(!new)>(s: seq<T>, lt: (T, T) -> bool)
    requires WeakOrder(lt)
    ensures NonDescending(SortBy(s, lt), lt)
  {
    if s != [] {
      SortOrders(s[1..], lt);
      InsertOrders(s[0], SortBy(s[1..], lt), lt);
    }
  }

  /** Strictly sorted listings of the same elements are the same listing. */
  lemma {:induction false} AscendingIsUnique<T(!new)>(s: seq<T>, t: seq<T>, lt: (T, T) -> bool)
    requires WeakOrder(lt) && Ascending(s, lt) && Ascending(t, lt)
    requires forall x :: x in s <==> x in t
    ensures s == t
  {
    assert s != [] ==> s[0] in s;
    assert t != [] ==> t[0] in t;
    if s != [] && t != [] {
      assert Ranks(lt, s[0], t[0], s[0]);
      FirstIsLeast(s, t[0], lt);
      FirstIsLeast(t, s[0], lt);
      forall x ensures x in s[1..] <==> x in t[1..] {
        RestOfAscending(s, x, lt);
        RestOfAscending(t, x, lt);
      }
      AscendingIsUnique(s[1..], t[1..], lt);
      assert s == [s[0]] + s[1..] && t == [t[0]] + t[1..];
    }
  }

  lemma FirstIsLeast<T(!new)>(s: seq<T>, x: T, lt: (T, T) -> bool)
    requires Ascending(s, lt) && x in s
    ensures x == s[0] || lt(s[0], x)
  {
  }

  lemma RestOfAscending<T(!new)>(s: seq<T>, x: T, lt: (T, T) -> bool)
    requires WeakOrder(lt) && Ascending(s, lt) && s != []
    ensures x in s[1..] <==> x in s && x != s[0]
  {
    assert s == [s[0]] + s[1..];
    assert forall i :: 0 <= i < |s[1..]| ==> s[1..][i] == s[i + 1] && lt(s[0], s[i + 1]);
    assert Ranks(lt, s[0], s[0], s[0]);
  }

  lemma AscendingIsDistinct<T(!new)>(s: seq<T>, lt: (T, T) -> bool)
    requires WeakOrder(lt) && Ascending(s, lt)
    ensures Distinct(s)
  {
    forall i, j | 0 <= i < j < |s| ensures s[i] != s[j] {
      assert lt(s[i], s[j]) && Ranks(lt, s[i], s[i], s[i]);
    }
  }

  /** Sorting distinct elements that never tie gives the strictly sorted listing of them. */
  lemma SortOfDistinct<T(!new)>(s: seq<T>, lt: (T, T) -> bool)
    requires WeakOrder(lt) && Distinct(s) && Separates(lt, Elements(s))
    ensures Ascending(SortBy(s, lt), lt)
  {
    var r := SortBy(s, lt);
    SortOrders(s, lt);
    SortKeeps(s, lt);
    forall i, j | 0 <= i < j < |r| ensures lt(r[i], r[j]) {
      assert r[i] in s && r[j] in s;
      OnceInMultiset(s, r[i]);
      NotTwice(r, i, j);
      assert r[i] in Elements(s) && r[j] in Elements(s) && Apart(lt, r[i], r[j]);
      assert !lt(r[j], r[i]);
    }
  }

  lemma NotTwice<T>(s: seq<T>, i: nat, j: nat)
    requires i < j < |s| && multiset(s)[s[i]] <= 1
    ensures s[i] != s[j]
  {
    assert s == s[..j] + [s[j]] + s[j + 1..];
    assert s[i] in s[..j];
    assert multiset(s) == multiset(s[..j]) + multiset{s[j]} + multiset(s[j + 1..]);
  }

  lemma OnceInMultiset<T>(s: seq<T>, x: T)
    requires Distinct(s)
    ensures multiset(s)[x] <= 1
  {
    if x in s {
      var i :| 0 <= i < |s| && s[i] == x;
      assert s == s[..i] + [s[i]] + s[i + 1..];
      assert multiset(s) == multiset(s[..i]) + multiset{x} + multiset(s[i + 1..]);
      assert x !in s[..i] && x !in s[i + 1..];
      assert x !in multiset(s[..i]) && x !in multiset(s[i + 1..]);
    }
  }

  lemma {:induction false} SteppingAscends<T(!new)>(s: seq<T>, lt: (T, T) -> bool)
    requires WeakOrder(lt) && StepsUp(s, lt)
    ensures Ascending(s, lt)
  {
    if |s| > 0 {
      var t := s[..|s| - 1];
      SteppingAscends(t, lt);
      forall a, b | 0 <= a < b < |s| ensures lt(s[a], s[b]) {
        if b < |s| - 1 {
          assert lt(t[a], t[b]);
        } else if a < b - 1 {
          assert lt(t[a], t[b - 1]) && lt(s[b - 1], s[b]);
          assert Ranks(lt, s[a], s[b - 1], s[b]);
        }
      }
    }
  }

  lemma SamePopulation<T>(s: seq<T>, t: seq<T>)
    requires multiset(s) == multiset(t)
    ensures Distinct(s) ==> Distinct(t)
  {
    if Distinct(s) {
      forall a, b | 0 <= a < b < |t| ensures t[a] != t[b] {
        OnceInMultiset(s, t[a]);
        NotTwice(t, a, b);
      }
    }
  }

  lemma SortIsDistinct<T>(s: seq<T>, lt: (T, T) -> bool)
    ensures Distinct(SortBy(s, lt)) <==> Distinct(s)
  {
    SortKeeps(s, lt);
    SamePopulation(s, SortBy(s, lt));
    SamePopulation(SortBy(s, lt), s);
  }

  /** Sorting elements that never tie gives a strictly sorted list exactly when nothing repeats. */
  lemma SortStepsUpIffDistinct<T(!new)>(s: seq<T>, lt: (T, T) -> bool)
    requires WeakOrder(lt) && Separates(lt, Elements(s))
    ensures StepsUp(SortBy(s, lt), lt) <==> Distinct(s)
  {
    SortIsDistinct(s, lt);
    if StepsUp(SortBy(s, lt), lt) {
      SteppingAscends(SortBy(s, lt), lt);
      AscendingIsDistinct(SortBy(s, lt), lt);
    }
    if Distinct(s) {
      SortOfDistinct(s, lt);
    }
  }

  /** Some listing of a set, in no particular order. */
  ghost function Listing<T(!new)>(S: set<T>): (s: seq<T>)
    ensures |s| == |S|
    ensures forall x :: x in s <==> x in S
    ensures Distinct(s)
  {
    if S == {} then [] else
      var x :| x in S;
      var rest := Listing(S - {x});
      assert forall i :: 0 <= i < |rest| ==> rest[i] in S - {x};
      [x] + rest
  }

  /** The rows of `S` in the order `ORDER BY` asks for. */
  ghost function OrderBy<T(!new)>(S: set<T>, lt: (T, T) -> bool): seq<T> {
    SortBy(Listing(S), lt)
  }

  lemma OrderByLists<T(!new)>(S: set<T>, lt: (T, T) -> bool)
    requires WeakOrder(lt) && Separates(lt, S)
    ensures Ascending(OrderBy(S, lt), lt)
    ensures Elements(OrderBy(S, lt)) == S
    ensures |OrderBy(S, lt)| == |S|
    ensures forall x :: x in OrderBy(S, lt) <==> x in S
  {
    assert Elements(Listing(S)) == S;
    SortOfDistinct(Listing(S), lt);
    SortKeeps(Listing(S), lt);
  }

  /** `ORDER BY` has one answer: the strictly sorted listing of the rows. */
  lemma OrderByIs<T(!new)>(S: set<T>, lt: (T, T) -> bool, s: seq<T>)
    requires WeakOrder(lt) && Ascending(s, lt)
    requires forall x :: x in s <==> x in S
    ensures s == OrderBy(S, lt)
  {
    assert Separates(lt, S) by {
      forall a, b | a in S && b in S ensures Apart(lt, a, b) {
        assert a in s && b in s;
        var i :| 0 <= i < |s| && s[i] == a;
        var j :| 0 <= j < |s| && s[j] == b;
      }
    }
    OrderByLists(S, lt);
    AscendingIsUnique(s, OrderBy(S, lt), lt);
  }

  function Take<T>(s: seq<T>, n: int): seq<T> {
    if n <= 0 then [] else if |s| <= n then s else s[..n]
  }
}
