/** Raw string comparison (`left < right` on code units), as `compareRaw` and `compareText` use it. */
module Text {
  import opened Ordering

  predicate Less(a: string, b: string) {
    if b == "" then false
    else if a == "" then true
    else a[0] < b[0] || (a[0] == b[0] && Less(a[1..], b[1..]))
  }

  lemma {:induction false} Irreflexive(a: string)
    ensures !Less(a, a)
  {
    if a != "" {
      Irreflexive(a[1..]);
    }
  }

  lemma {:induction false} Transitive(a: string, b: string, c: string)
    requires Less(a, b) && Less(b, c)
    ensures Less(a, c)
  {
    if a != "" && a[0] == b[0] == c[0] {
      Transitive(a[1..], b[1..], c[1..]);
    }
  }

  lemma {:induction false} Trichotomy(a: string, b: string)
    requires a != b
    ensures Less(a, b) || Less(b, a)
  {
    if a != "" && b != "" && a[0] == b[0] {
      assert a == [a[0]] + a[1..] && b == [b[0]] + b[1..];
      Trichotomy(a[1..], b[1..]);
    }
  }

  /** The strings first differ at `k`, where `a` ends or has the smaller code unit. */
  predicate DivergesAt(a: string, b: string, k: nat) {
    k <= |a| && k < |b| && a[..k] == b[..k] && (k == |a| || a[k] < b[k])
  }

  /** Raw order: the first difference decides, and a prefix comes first. */
  lemma {:induction false} LessIff(a: string, b: string)
    ensures Less(a, b) <==> exists k: nat :: DivergesAt(a, b, k)
  {
    if a == "" && b != "" {
      assert DivergesAt(a, b, 0);
    } else if a != "" && b != "" {
      LessIff(a[1..], b[1..]);
      if a[0] < b[0] {
        assert DivergesAt(a, b, 0);
      } else if Less(a, b) {
        var k: nat :| DivergesAt(a[1..], b[1..], k);
        assert a[..k + 1] == [a[0]] + a[1..][..k] && b[..k + 1] == [b[0]] + b[1..][..k];
        assert DivergesAt(a, b, k + 1);
      }
      if k: nat :| DivergesAt(a, b, k) {
        if k > 0 {
          assert a[..k][0] == a[0] && b[..k][0] == b[0];
          assert a[1..][..k - 1] == a[..k][1..] && b[1..][..k - 1] == b[..k][1..];
          assert DivergesAt(a[1..], b[1..], k - 1);
        }
      }
    }
  }

  /** A separator that neither prefix contains makes concatenation injective. */
  lemma {:induction false} SeparatorSplits(a: string, x: string, b: string, y: string, sep: char)
    requires sep !in a && sep !in b
    requires a + [sep] + x == b + [sep] + y
    ensures a == b && x == y
  {
    var s, t := a + [sep] + x, b + [sep] + y;
    assert s[0] == if a == "" then sep else a[0];
    assert t[0] == if b == "" then sep else b[0];
    assert s[1..] == if a == "" then x else a[1..] + [sep] + x;
    assert t[1..] == if b == "" then y else b[1..] + [sep] + y;
    if a != "" && b != "" {
      SeparatorSplits(a[1..], x, b[1..], y, sep);
      assert a == [a[0]] + a[1..] && b == [b[0]] + b[1..];
    }
  }

  /** The laws of a strict total order, at three strings. */
  lemma KeysOrder(a: string, b: string, c: string)
    ensures !Less(a, a)
    ensures Less(a, b) && Less(b, c) ==> Less(a, c)
    ensures Less(a, c) ==> Less(a, b) || Less(b, c)
    ensures a != b ==> Less(a, b) || Less(b, a)
  {
    Irreflexive(a);
    if Less(a, b) && Less(b, c) {
      Transitive(a, b, c);
    }
    if a != b {
      Trichotomy(a, b);
      if Less(b, a) && Less(a, c) {
        Transitive(b, a, c);
      }
    }
  }

  lemma LessOrders()
    ensures TotalOrder(Less)
  {
    forall a: string, b: string, c: string ensures Ranks(Less, a, b, c) {
      KeysOrder(a, b, c);
    }
    forall a: string, b: string ensures Apart(Less, a, b) {
      KeysOrder(a, b, a);
    }
  }

  /** Sorting a set of strings lists it strictly ascending, each element once. */
  lemma StringsListed(S: set<string>)
    ensures Ascending(OrderBy(S, Less), Less)
    ensures |OrderBy(S, Less)| == |S|
    ensures forall x :: x in OrderBy(S, Less) <==> x in S
  {
    LessOrders();
    OrderByLists(S, Less);
  }

  /** `fields.join("\0")`. */
  function Join(fields: seq<string>): string {
    if fields == [] then ""
    else if |fields| == 1 then fields[0]
    else fields[0] + ['\0'] + Join(fields[1..])
  }

  ghost predicate Separable(fields: seq<string>) {
    forall i :: 0 <= i < |fields| ==> '\0' !in fields[i]
  }

  /** Joined records collide only when every field agrees. */
  lemma {:induction false} JoinIsInjective(f: seq<string>, g: seq<string>)
    requires |f| == |g| && Separable(f) && Separable(g)
    requires Join(f) == Join(g)
    ensures f == g
  {
    if |f| == 1 {
      assert f == [f[0]] && g == [g[0]];
    } else if |f| > 1 {
      SeparatorSplits(f[0], Join(f[1..]), g[0], Join(g[1..]), '\0');
      JoinIsInjective(f[1..], g[1..]);
      assert f == [f[0]] + f[1..] && g == [g[0]] + g[1..];
    }
  }
}
