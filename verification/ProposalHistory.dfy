/** What holds of the proposal table over any sequence of pipeline runs and materializations. */
module ProposalHistory {
  import opened Wrappers
  import opened ProposalChecks
  import opened Proposals
  import Ordering

  datatype Op = RunOp(input: RunInput) | MarkOp(id: ProposalId, event: int, claim: Option<int>)

  function Apply(rules: Rules, before: IdOrder, rows: seq<Row>, op: Op): seq<Row> {
    match op
    case RunOp(input) => Run(rules, before, rows, input).rows
    case MarkOp(id, event, claim) => MarkOnce(rows, id, event, claim)
  }

  function Execute(rules: Rules, before: IdOrder, rows: seq<Row>, ops: seq<Op>): seq<Row> {
    if ops == [] then rows
    else Apply(rules, before, Execute(rules, before, rows, ops[..|ops| - 1]), ops[|ops| - 1])
  }

  // ----- rows are written once, and marked once -----

  /** Only the materialization may be filled in, and only where there was none. */
  predicate SameProposal(r: Row, s: Row) {
    s.(materialized := r.materialized, claim := r.claim) == r && (r.materialized.Some? ==> s == r)
  }

  predicate Kept(before: seq<Row>, after: seq<Row>) {
    |before| <= |after| && forall i :: 0 <= i < |before| ==> SameProposal(before[i], after[i])
  }

  lemma {:induction false} ConsiderAllAppends(rules: Rules, input: RunInput, p: Progress, cs: seq<Candidate>)
    ensures p.rows <= ConsiderAll(rules, input, p, cs).rows
  {
    if cs != [] {
      ConsiderAllAppends(rules, input, p, cs[..|cs| - 1]);
    }
  }

  lemma ApplyKeepsRows(rules: Rules, before: IdOrder, rows: seq<Row>, op: Op)
    ensures Kept(rows, Apply(rules, before, rows, op))
  {
    match op
    case RunOp(input) => ConsiderAllAppends(rules, input, Begin(rules, rows, input, before), input.candidates);
    case MarkOp(id, event, claim) =>
  }

  lemma KeptTransitive(a: seq<Row>, b: seq<Row>, c: seq<Row>)
    requires Kept(a, b) && Kept(b, c)
    ensures Kept(a, c)
  {
    forall i | 0 <= i < |a| ensures SameProposal(a[i], c[i]) {
      assert SameProposal(a[i], b[i]) && SameProposal(b[i], c[i]);
    }
  }

  /**
   * Over any sequence of operations a stored proposal stays where it is with the verdict it was given, and
   * once it names a materialized event it never changes again.
   */
  lemma {:induction false} StoredProposalsNeverChange(rules: Rules, before: IdOrder, rows: seq<Row>, ops: seq<Op>)
    ensures Kept(rows, Execute(rules, before, rows, ops))
  {
    if ops != [] {
      var n := |ops| - 1;
      StoredProposalsNeverChange(rules, before, rows, ops[..n]);
      var middle := Execute(rules, before, rows, ops[..n]);
      ApplyKeepsRows(rules, before, middle, ops[n]);
      KeptTransitive(rows, middle, Apply(rules, before, middle, ops[n]));
    }
  }

  // ----- the table's invariant -----

  /** Some view exists in which this candidate passes every check. */
  ghost predicate EarnsPromotion(rules: Rules, c: Candidate) {
    exists view: string :: EarnsIn(rules, c, view)
  }

  predicate EarnsIn(rules: Rules, c: Candidate, view: string) {
    && rules.keeps(c, view) && CiteOk(rules, c, view) && SecretOk(rules, c, view)
    && EvaluateGate(rules, c, true, true, true, false).verdict.Promote?
  }

  ghost predicate RowOk(rules: Rules, r: Row) {
    && (r.gate.verdict.Promote? ==> EarnsPromotion(rules, r.candidate))
    && r.id.kind == r.candidate.kind && r.id.statement == r.candidate.statement
    && r.id.citations == r.candidate.citations
  }

  predicate IdsDiffer(rows: seq<Row>) {
    forall i, j :: 0 <= i < j < |rows| ==> rows[i].id != rows[j].id
  }

  ghost predicate TableOk(rules: Rules, rows: seq<Row>) {
    IdsDiffer(rows) && forall i :: 0 <= i < |rows| ==> RowOk(rules, rows[i])
  }

  lemma {:induction false} GetFacts(rows: seq<Row>, id: ProposalId)
    ensures Get(rows, id).None? <==> forall i :: 0 <= i < |rows| ==> rows[i].id != id
    ensures Get(rows, id).Some? ==> Get(rows, id).value in rows && Get(rows, id).value.id == id
  {
    if rows != [] {
      var n := |rows| - 1;
      assert rows == rows[..n] + [rows[n]];
      GetFacts(rows[..n], id);
      if Get(rows, id).None? {
        forall i | 0 <= i < |rows| ensures rows[i].id != id {
          if i < n {
            assert rows[..n][i] == rows[i];
          }
        }
      } else if rows[n].id != id {
        var i :| 0 <= i < n && rows[..n][i].id == id;
        assert rows[i].id == id;
      }
    }
  }

  lemma RowForIsOk(
    rules: Rules, input: RunInput, c: Candidate, ordinal: nat, promoted: set<string>, recent: set<string>)
    requires rules.keeps(c, input.view)
    ensures var row := RowFor(rules, input, c, ordinal, promoted, recent);
      && RowOk(rules, row)
      && (row.gate.verdict.Promote? ==>
            |KeyOf(rules, row)| >= 8 && KeyOf(rules, row) !in promoted && KeyOf(rules, row) !in recent)
  {
    var row := RowFor(rules, input, c, ordinal, promoted, recent);
    if row.gate.verdict.Promote? {
      assert EarnsIn(rules, c, input.view);
      VerifiedKeyIsLong(rules, c, input.view);
    }
  }

  lemma PutIsOk(rules: Rules, rows: seq<Row>, row: Row)
    requires TableOk(rules, rows) && RowOk(rules, row)
    ensures TableOk(rules, Put(rows, row))
  {
    GetFacts(rows, row.id);
  }

  lemma {:induction false} ConsiderAllIsOk(rules: Rules, input: RunInput, p: Progress, cs: seq<Candidate>)
    requires TableOk(rules, p.rows)
    ensures TableOk(rules, ConsiderAll(rules, input, p, cs).rows)
  {
    if cs != [] {
      var n := |cs| - 1;
      ConsiderAllIsOk(rules, input, p, cs[..n]);
      var q, c := ConsiderAll(rules, input, p, cs[..n]), cs[n];
      if rules.keeps(c, input.view) {
        RowForIsOk(rules, input, c, q.ordinal + 1, q.promoted, q.recent);
        PutIsOk(rules, q.rows, RowFor(rules, input, c, q.ordinal + 1, q.promoted, q.recent));
      }
    }
  }

  lemma ApplyIsOk(rules: Rules, before: IdOrder, rows: seq<Row>, op: Op)
    requires TableOk(rules, rows)
    ensures TableOk(rules, Apply(rules, before, rows, op))
  {
    match op
    case RunOp(input) => ConsiderAllIsOk(rules, input, Begin(rules, rows, input, before), input.candidates);
    case MarkOp(id, event, claim) =>
      var after := MarkOnce(rows, id, event, claim);
      forall i | 0 <= i < |after| ensures RowOk(rules, after[i]) && after[i].id == rows[i].id {
        assert RowOk(rules, rows[i]);
      }
  }

  /**
   * In every reachable table ids differ, and every promoted row holds a candidate that, in some view, was kept
   * by the quality filter, was cited and grounded, held no secret, and passed the gate.
   */
  lemma {:induction false} ReachableTablesAreSound(rules: Rules, before: IdOrder, ops: seq<Op>)
    ensures TableOk(rules, Execute(rules, before, [], ops))
  {
    if ops != [] {
      ReachableTablesAreSound(rules, before, ops[..|ops| - 1]);
      ApplyIsOk(rules, before, Execute(rules, before, [], ops[..|ops| - 1]), ops[|ops| - 1]);
    }
  }

  /** No promoted row of a reachable table holds secret-like text, in its statement or in any quote. */
  lemma PromotesHoldNoSecret(rules: Rules, before: IdOrder, ops: seq<Op>, r: Row)
    requires r in Execute(rules, before, [], ops) && r.gate.verdict.Promote?
    ensures !rules.secretish(r.candidate.statement)
    ensures forall q :: q in r.candidate.citations ==> !rules.secretish(q.quote)
  {
    var rows := Execute(rules, before, [], ops);
    ReachableTablesAreSound(rules, before, ops);
    var i :| 0 <= i < |rows| && rows[i] == r;
    assert RowOk(rules, rows[i]);
    var view :| EarnsIn(rules, r.candidate, view);
    CleanHoldsNoSecret(rules, r.candidate, view);
  }

  // ----- what one run promotes -----

  ghost predicate NewPromote(rules: Rules, rows: seq<Row>, start: nat, i: int) {
    start <= i < |rows| && rows[i].gate.verdict.Promote?
  }

  /** The promotes written since `start` have long keys, all different, none of them in `window`. */
  ghost predicate NewKeys(rules: Rules, rows: seq<Row>, start: nat, window: set<string>) {
    && (forall i {:trigger NewPromote(rules, rows, start, i)} :: NewPromote(rules, rows, start, i) ==>
          |KeyOf(rules, rows[i])| >= 8 && KeyOf(rules, rows[i]) !in window)
    && (forall i, j {:trigger NewPromote(rules, rows, start, i), NewPromote(rules, rows, start, j)} ::
          NewPromote(rules, rows, start, i) && NewPromote(rules, rows, start, j) && i != j
          ==> KeyOf(rules, rows[i]) != KeyOf(rules, rows[j]))
  }

  ghost predicate RunInv(rules: Rules, zone: int, start: seq<Row>, window: set<string>, p: Progress) {
    && start <= p.rows
    && (forall i :: |start| <= i < |p.rows| ==> p.rows[i].id.zone == zone)
    && NewKeys(rules, p.rows, |start|, window)
    && (forall i {:trigger NewPromote(rules, p.rows, |start|, i)} ::
          NewPromote(rules, p.rows, |start|, i) ==> KeyOf(rules, p.rows[i]) in p.promoted)
    && p.promoted <= p.recent && window <= p.recent
  }

  lemma ConsiderKeepsRunInv(
    rules: Rules, input: RunInput, start: seq<Row>, window: set<string>, p: Progress, c: Candidate)
    requires RunInv(rules, input.zone, start, window, p)
    ensures RunInv(rules, input.zone, start, window, Consider(rules, input, p, c))
  {
    if rules.keeps(c, input.view) {
      var row := RowFor(rules, input, c, p.ordinal + 1, p.promoted, p.recent);
      var q := Consider(rules, input, p, c);
      RowForIsOk(rules, input, c, p.ordinal + 1, p.promoted, p.recent);
      forall i | NewPromote(rules, q.rows, |start|, i) && i < |p.rows| ensures NewPromote(rules, p.rows, |start|, i) {
      }
    }
  }

  lemma {:induction false} ConsiderAllKeepsRunInv(
      rules: Rules, input: RunInput, start: seq<Row>, window: set<string>, p: Progress, cs: seq<Candidate>)
    requires RunInv(rules, input.zone, start, window, p)
    ensures RunInv(rules, input.zone, start, window, ConsiderAll(rules, input, p, cs))
  {
    if cs != [] {
      var n := |cs| - 1;
      ConsiderAllKeepsRunInv(rules, input, start, window, p, cs[..n]);
      ConsiderKeepsRunInv(rules, input, start, window, ConsiderAll(rules, input, p, cs[..n]), cs[n]);
    }
  }

  /**
   * Every promote a run writes has a normalized statement of at least eight characters, different from all
   * other promotes of that run and from the zone's 200 most recent promotes at its start.
   */
  lemma RunPromotesNewStatements(rules: Rules, before: IdOrder, rows: seq<Row>, input: RunInput)
    ensures var after := Run(rules, before, rows, input).rows;
      && rows <= after
      && (forall i :: |rows| <= i < |after| ==> after[i].id.zone == input.zone)
      && NewKeys(rules, after, |rows|, Keys(rules, Recent(rows, input.zone, before)))
  {
    var window := Keys(rules, Recent(rows, input.zone, before));
    ConsiderAllKeepsRunInv(rules, input, rows, window, Begin(rules, rows, input, before), input.candidates);
  }

  // ----- unique keys -----

  ghost predicate Promoted(rows: seq<Row>, zone: int, i: int) {
    0 <= i < |rows| && PromotedIn(rows[i], zone)
  }

  /** No two promotes of the zone have the same normalized statement. */
  ghost predicate UniqueKeys(rules: Rules, rows: seq<Row>, zone: int) {
    forall i, j {:trigger Promoted(rows, zone, i), Promoted(rows, zone, j)} ::
      Promoted(rows, zone, i) && Promoted(rows, zone, j) && i != j ==> KeyOf(rules, rows[i]) != KeyOf(rules, rows[j])
  }

  lemma {:induction false} PromotesFacts(rows: seq<Row>, zone: int)
    ensures forall r :: r in Promotes(rows, zone) <==> r in rows && PromotedIn(r, zone)
  {
    if rows != [] {
      var n := |rows| - 1;
      assert rows == rows[..n] + [rows[n]];
      PromotesFacts(rows[..n], zone);
    }
  }

  lemma {:induction false} KeysFacts(rules: Rules, rows: seq<Row>, key: string)
    ensures key in Keys(rules, rows) <==> key != "" && exists r :: r in rows && KeyOf(rules, r) == key
  {
    if rows != [] {
      var n := |rows| - 1;
      assert rows == rows[..n] + [rows[n]];
      KeysFacts(rules, rows[..n], key);
    }
  }

  /** The number of promotes a run for this zone may find while its window still shows all of them. */
  predicate WindowCovers(rows: seq<Row>, zone: int) { |Promotes(rows, zone)| <= RECENT_LIMIT }

  lemma CoveredKeysAreSeen(rules: Rules, before: IdOrder, rows: seq<Row>, zone: int, i: int)
    requires TableOk(rules, rows) && WindowCovers(rows, zone) && Promoted(rows, zone, i)
    ensures KeyOf(rules, rows[i]) in Keys(rules, Recent(rows, zone, before))
  {
    var all := Promotes(rows, zone);
    PromotesFacts(rows, zone);
    Ordering.SortKeeps(all, NewerBy(before));
    assert rows[i] in rows && rows[i] in Recent(rows, zone, before);
    KeysFacts(rules, Recent(rows, zone, before), KeyOf(rules, rows[i]));
    assert RowOk(rules, rows[i]);
  }

  lemma RunKeepsKeysUnique(rules: Rules, before: IdOrder, rows: seq<Row>, input: RunInput, zone: int)
    requires TableOk(rules, rows) && UniqueKeys(rules, rows, zone)
    requires input.zone == zone ==> WindowCovers(rows, zone)
    ensures UniqueKeys(rules, Run(rules, before, rows, input).rows, zone)
  {
    var after := Run(rules, before, rows, input).rows;
    RunPromotesNewStatements(rules, before, rows, input);
    forall i, j | Promoted(after, zone, i) && Promoted(after, zone, j) && i < j
      ensures KeyOf(rules, after[i]) != KeyOf(rules, after[j])
    {
      if j < |rows| {
        assert Promoted(rows, zone, i) && Promoted(rows, zone, j);
      } else {
        assert NewPromote(rules, after, |rows|, j);
        if i < |rows| {
          assert Promoted(rows, zone, i);
          CoveredKeysAreSeen(rules, before, rows, zone, i);
        } else {
          assert NewPromote(rules, after, |rows|, i);
        }
      }
    }
  }

  lemma MarkKeepsKeysUnique(rules: Rules, rows: seq<Row>, id: ProposalId, event: int, claim: Option<int>, zone: int)
    requires UniqueKeys(rules, rows, zone)
    ensures UniqueKeys(rules, MarkOnce(rows, id, event, claim), zone)
  {
    var after := MarkOnce(rows, id, event, claim);
    forall i, j | Promoted(after, zone, i) && Promoted(after, zone, j) && i != j
      ensures KeyOf(rules, after[i]) != KeyOf(rules, after[j])
    {
      assert Promoted(rows, zone, i) && Promoted(rows, zone, j);
    }
  }

  /** Each run for this zone starts with at most 200 promotes in it. */
  ghost predicate RunsAreCovered(rules: Rules, before: IdOrder, ops: seq<Op>, zone: int) {
    forall k :: 0 <= k < |ops| && ops[k].RunOp? && ops[k].input.zone == zone
      ==> WindowCovers(Execute(rules, before, [], ops[..k]), zone)
  }

  /** Over any sequence of operations, keys stay unique among a zone's promotes while its runs are covered. */
  lemma {:induction false} KeysStayUnique(rules: Rules, before: IdOrder, ops: seq<Op>, zone: int)
    requires RunsAreCovered(rules, before, ops, zone)
    ensures UniqueKeys(rules, Execute(rules, before, [], ops), zone)
  {
    if ops != [] {
      var n := |ops| - 1;
      forall k | 0 <= k < n && ops[..n][k].RunOp? && ops[..n][k].input.zone == zone
        ensures WindowCovers(Execute(rules, before, [], ops[..n][..k]), zone)
      {
        assert ops[..n][..k] == ops[..k] && ops[..n][k] == ops[k];
      }
      KeysStayUnique(rules, before, ops[..n], zone);
      var rows := Execute(rules, before, [], ops[..n]);
      match ops[n]
      case RunOp(input) =>
        ReachableTablesAreSound(rules, before, ops[..n]);
        RunKeepsKeysUnique(rules, before, rows, input, zone);
      case MarkOp(id, event, claim) =>
        MarkKeepsKeysUnique(rules, rows, id, event, claim, zone);
    }
  }

  // ----- and only then -----

  ghost predicate KeysDiffer(rules: Rules, rows: seq<Row>) {
    forall i, j :: 0 <= i < j < |rows| ==> KeyOf(rules, rows[i]) != KeyOf(rules, rows[j])
  }

  lemma {:induction false} PromotesKeysDiffer(rules: Rules, rows: seq<Row>, zone: int)
    requires UniqueKeys(rules, rows, zone)
    ensures KeysDiffer(rules, Promotes(rows, zone))
  {
    if rows != [] {
      var n := |rows| - 1;
      forall i, j | Promoted(rows[..n], zone, i) && Promoted(rows[..n], zone, j) && i != j
        ensures KeyOf(rules, rows[..n][i]) != KeyOf(rules, rows[..n][j])
      {
        assert Promoted(rows, zone, i) && Promoted(rows, zone, j);
      }
      PromotesKeysDiffer(rules, rows[..n], zone);
      PromotesFacts(rows[..n], zone);
      var rest := Promotes(rows[..n], zone);
      if PromotedIn(rows[n], zone) {
        assert Promoted(rows, zone, n);
        forall k | 0 <= k < |rest| ensures KeyOf(rules, rest[k]) != KeyOf(rules, rows[n]) {
          assert rest[k] in rest;
          var i :| 0 <= i < n && rows[..n][i] == rest[k];
          assert Promoted(rows, zone, i);
        }
      }
    }
  }

  lemma SortedKeysDiffer(rules: Rules, rows: seq<Row>, zone: int, before: IdOrder)
    requires UniqueKeys(rules, rows, zone)
    ensures KeysDiffer(rules, NewestFirst(rows, zone, before))
  {
    var all, sorted := Promotes(rows, zone), NewestFirst(rows, zone, before);
    PromotesKeysDiffer(rules, rows, zone);
    Ordering.SortKeeps(all, NewerBy(before));
    Ordering.SortIsDistinct(all, NewerBy(before));
    forall i, j | 0 <= i < j < |sorted| ensures KeyOf(rules, sorted[i]) != KeyOf(rules, sorted[j]) {
      assert sorted[i] in all && sorted[j] in all;
      var a :| 0 <= a < |all| && all[a] == sorted[i];
      var b :| 0 <= b < |all| && all[b] == sorted[j];
    }
  }

  /** With more promotes than the window shows, one of them is older than all it shows. */
  lemma ForgottenPromote(rules: Rules, before: IdOrder, rows: seq<Row>, zone: int) returns (r: Row)
    requires UniqueKeys(rules, rows, zone) && !WindowCovers(rows, zone)
    ensures r in rows && PromotedIn(r, zone)
    ensures KeyOf(rules, r) !in Keys(rules, Recent(rows, zone, before))
  {
    var sorted := NewestFirst(rows, zone, before);
    SortedKeysDiffer(rules, rows, zone, before);
    Ordering.SortKeeps(Promotes(rows, zone), NewerBy(before));
    PromotesFacts(rows, zone);
    r := sorted[RECENT_LIMIT];
    assert r in Promotes(rows, zone);
    KeysFacts(rules, Recent(rows, zone, before), KeyOf(rules, r));
    forall w | w in Recent(rows, zone, before) ensures KeyOf(rules, w) != KeyOf(rules, r) {
      var k :| 0 <= k < RECENT_LIMIT && sorted[k] == w;
    }
  }

  function UnusedSource(rows: seq<Row>): (source: int)
    ensures forall r :: r in rows ==> r.id.source < source
  {
    if rows == [] then 0
    else
      var n := |rows| - 1;
      var rest := UnusedSource(rows[..n]);
      assert rows == rows[..n] + [rows[n]];
      if rest <= rows[n].id.source then rows[n].id.source + 1 else rest
  }

  /** A run of one candidate that earns promotion, under a key not shown and an id not used, promotes it. */
  lemma PromotesOne(rules: Rules, before: IdOrder, rows: seq<Row>, input: RunInput, c: Candidate)
    requires input.candidates == [c] && input.autoPromote && !input.holdFirst && EarnsIn(rules, c, input.view)
    requires rules.normalize(c.statement) !in Keys(rules, Recent(rows, input.zone, before))
    requires Get(rows, MakeId(input, c, 1)).None?
    ensures var after := Run(rules, before, rows, input).rows;
      && |after| == |rows| + 1 && after[..|rows|] == rows
      && Promoted(after, input.zone, |rows|) && after[|rows|].candidate == c && after[|rows|].id == MakeId(input, c, 1)
  {
    var p := Begin(rules, rows, input, before);
    assert input.candidates[..0] == [];
    assert ConsiderAll(rules, input, p, []) == p;
    assert Run(rules, before, rows, input) == Consider(rules, input, p, c);
  }

  /** A candidate promoted before passes again, in the view it passed in, from a source not seen yet. */
  lemma PromotedAgain(rules: Rules, before: IdOrder, rows: seq<Row>, zone: int, c: Candidate, view: string)
      returns (input: RunInput)
    requires EarnsIn(rules, c, view)
    requires rules.normalize(c.statement) !in Keys(rules, Recent(rows, zone, before))
    ensures input.zone == zone
    ensures var after := Run(rules, before, rows, input).rows;
      && |after| == |rows| + 1 && after[..|rows|] == rows
      && Promoted(after, zone, |rows|) && after[|rows|].candidate == c
  {
    input := RunInput(zone, UnusedSource(rows), 0, view, [c], true, false, 0);
    GetFacts(rows, MakeId(input, c, 1));
    PromotesOne(rules, before, rows, input, c);
  }

  ghost predicate EveryRunKeepsKeysUnique(rules: Rules, before: IdOrder, rows: seq<Row>, zone: int) {
    forall input: RunInput {:trigger Run(rules, before, rows, input)} :: input.zone == zone ==>
      UniqueKeys(rules, Run(rules, before, rows, input).rows, zone)
  }

  /**
   * From a sound table with unique keys, every next run keeps them unique exactly when the zone has at most
   * 200 promotes: beyond that, resubmitting a promote the window no longer shows promotes it twice.
   */
  lemma KeysStayUniqueIff(rules: Rules, before: IdOrder, rows: seq<Row>, zone: int)
    requires TableOk(rules, rows) && UniqueKeys(rules, rows, zone)
    ensures EveryRunKeepsKeysUnique(rules, before, rows, zone) <==> WindowCovers(rows, zone)
  {
    if WindowCovers(rows, zone) {
      forall input: RunInput | input.zone == zone
        ensures UniqueKeys(rules, Run(rules, before, rows, input).rows, zone)
      {
        RunKeepsKeysUnique(rules, before, rows, input, zone);
      }
    } else {
      var r := ForgottenPromote(rules, before, rows, zone);
      var i :| 0 <= i < |rows| && rows[i] == r;
      assert RowOk(rules, rows[i]);
      var view :| EarnsIn(rules, r.candidate, view);
      var input := PromotedAgain(rules, before, rows, zone, r.candidate, view);
      var after := Run(rules, before, rows, input).rows;
      assert after[i] == after[..|rows|][i];
      assert Promoted(after, zone, i) && Promoted(after, zone, |rows|);
    }
  }

  /** The window shows the newest promotes. */
  lemma RecentAreNewest(before: IdOrder, rows: seq<Row>, zone: int, shown: Row, left: Row)
    requires Ordering.TotalOrder(before)
    requires shown in Recent(rows, zone, before) && left in Promotes(rows, zone)
    requires left !in Recent(rows, zone, before)
    ensures shown.createdAt > left.createdAt || (shown.createdAt == left.createdAt && !before(shown.id, left.id))
    ensures |Recent(rows, zone, before)| == RECENT_LIMIT
  {
    var sorted := NewestFirst(rows, zone, before);
    forall a, b, c ensures Ordering.Ranks(NewerBy(before), a, b, c) {
      assert Ordering.Ranks(before, a.id, b.id, c.id) && Ordering.Ranks(before, c.id, b.id, a.id);
      assert Ordering.Ranks(before, a.id, a.id, a.id);
    }
    Ordering.SortKeeps(Promotes(rows, zone), NewerBy(before));
    Ordering.SortOrders(Promotes(rows, zone), NewerBy(before));
    var j :| 0 <= j < |sorted| && sorted[j] == left;
    var recent := Recent(rows, zone, before);
    forall k | 0 <= k < |recent| ensures sorted[k] != left {
      assert recent[k] in recent;
    }
    var i :| 0 <= i < |recent| && recent[i] == shown;
    assert sorted[i] == shown && i < j && !NewerBy(before)(sorted[j], sorted[i]);
  }

  // ----- repeating a run -----

  /** The ids a run computes: they depend on its input alone. */
  function IdsOf(rules: Rules, input: RunInput, cs: seq<Candidate>): seq<ProposalId> {
    if cs == [] then []
    else
      var n := |cs| - 1;
      var rest := IdsOf(rules, input, cs[..n]);
      if rules.keeps(cs[n], input.view) then rest + [MakeId(input, cs[n], |rest| + 1)] else rest
  }

  ghost predicate Present(rows: seq<Row>, id: ProposalId) { exists i :: 0 <= i < |rows| && rows[i].id == id }

  lemma {:induction false} IdsAreWritten(rules: Rules, input: RunInput, p: Progress, cs: seq<Candidate>)
    requires p.ordinal == 0
    ensures ConsiderAll(rules, input, p, cs).ordinal == |IdsOf(rules, input, cs)|
    ensures forall id :: id in IdsOf(rules, input, cs) ==> Present(ConsiderAll(rules, input, p, cs).rows, id)
  {
    if cs != [] {
      var n := |cs| - 1;
      IdsAreWritten(rules, input, p, cs[..n]);
      var q := ConsiderAll(rules, input, p, cs[..n]);
      if rules.keeps(cs[n], input.view) {
        var row := RowFor(rules, input, cs[n], q.ordinal + 1, q.promoted, q.recent);
        GetFacts(q.rows, row.id);
        var after := Put(q.rows, row);
        forall id | id in IdsOf(rules, input, cs) ensures Present(after, id) {
          if Present(q.rows, id) {
            var i :| 0 <= i < |q.rows| && q.rows[i].id == id;
            assert after[i].id == id;
          } else {
            assert id == row.id && after[|q.rows|].id == id;
          }
        }
      }
    }
  }

  lemma {:induction false} WritesNothing(rules: Rules, input: RunInput, p: Progress, cs: seq<Candidate>)
    requires p.ordinal == 0
    requires forall id :: id in IdsOf(rules, input, cs) ==> Present(p.rows, id)
    ensures ConsiderAll(rules, input, p, cs).rows == p.rows
  {
    if cs != [] {
      var n := |cs| - 1;
      forall id | id in IdsOf(rules, input, cs[..n]) ensures Present(p.rows, id) {
        assert id in IdsOf(rules, input, cs);
      }
      WritesNothing(rules, input, p, cs[..n]);
      IdsAreWritten(rules, input, p, cs[..n]);
      var q := ConsiderAll(rules, input, p, cs[..n]);
      if rules.keeps(cs[n], input.view) {
        var row := RowFor(rules, input, cs[n], q.ordinal + 1, q.promoted, q.recent);
        assert row.id == IdsOf(rules, input, cs)[|IdsOf(rules, input, cs[..n])|];
        assert Present(p.rows, row.id);
        GetFacts(q.rows, row.id);
      }
    }
  }

  /** Running the same input again, whatever happened in between, writes no row. */
  lemma RepeatedRunWritesNothing(rules: Rules, before: IdOrder, rows: seq<Row>, input: RunInput, between: seq<Op>)
    ensures var later := Execute(rules, before, Run(rules, before, rows, input).rows, between);
      Run(rules, before, later, input).rows == later
  {
    var first := Run(rules, before, rows, input).rows;
    var later := Execute(rules, before, first, between);
    IdsAreWritten(rules, input, Begin(rules, rows, input, before), input.candidates);
    StoredProposalsNeverChange(rules, before, first, between);
    forall id | id in IdsOf(rules, input, input.candidates) ensures Present(later, id) {
      var i :| 0 <= i < |first| && first[i].id == id;
      assert SameProposal(first[i], later[i]) && later[i].id == id;
    }
    WritesNothing(rules, input, Begin(rules, later, input, before), input.candidates);
  }

  // ----- a history that outgrows the window -----

  /** A candidate with the view it is checked in. */
  datatype Submission = Submission(candidate: Candidate, view: string)

  /** Each candidate passes every check in its view, and no two have the same normalized statement. */
  predicate EarnApart(rules: Rules, subs: seq<Submission>) {
    && (forall k :: 0 <= k < |subs| ==> EarnsIn(rules, subs[k].candidate, subs[k].view))
    && (forall j, k :: 0 <= j < k < |subs| ==>
          rules.normalize(subs[j].candidate.statement) != rules.normalize(subs[k].candidate.statement))
  }

  /** A run of one candidate, from a source of its own. */
  function RunOf(zone: int, source: nat, sub: Submission): RunInput {
    RunInput(zone, source, 0, sub.view, [sub.candidate], true, false, source)
  }

  function Runs(zone: int, subs: seq<Submission>): seq<Op> {
    if subs == [] then []
    else
      var n := |subs| - 1;
      Runs(zone, subs[..n]) + [RunOp(RunOf(zone, n, subs[n]))]
  }

  predicate Holds(row: Row, zone: int, k: nat, c: Candidate) {
    PromotedIn(row, zone) && row.candidate == c && row.id.source == k
  }

  /** Row by row, what such runs leave. */
  predicate AllPromoted(rows: seq<Row>, zone: int, subs: seq<Submission>) {
    |rows| == |subs| && forall k :: 0 <= k < |rows| ==> Holds(rows[k], zone, k, subs[k].candidate)
  }

  /** The next candidate has another key than all rows, so its key is not shown. */
  lemma NextKeyIsNew(rules: Rules, before: IdOrder, rows: seq<Row>, zone: int, subs: seq<Submission>, next: Submission)
    requires EarnApart(rules, subs + [next]) && AllPromoted(rows, zone, subs)
    ensures rules.normalize(next.candidate.statement) !in Keys(rules, Recent(rows, zone, before))
  {
    var key, recent := rules.normalize(next.candidate.statement), Recent(rows, zone, before);
    KeysFacts(rules, recent, key);
    PromotesFacts(rows, zone);
    Ordering.SortKeeps(Promotes(rows, zone), NewerBy(before));
    forall r | r in recent ensures KeyOf(rules, r) != key {
      assert r in NewestFirst(rows, zone, before) && r in rows;
      var k :| 0 <= k < |rows| && rows[k] == r;
      assert Holds(rows[k], zone, k, subs[k].candidate) && (subs + [next])[k] == subs[k];
      assert (subs + [next])[|subs|] == next;
    }
  }

  /** It comes from another source than all rows, so its id is not used. */
  lemma NextIdIsNew(rows: seq<Row>, zone: int, subs: seq<Submission>, next: Submission)
    requires AllPromoted(rows, zone, subs)
    ensures Get(rows, MakeId(RunOf(zone, |subs|, next), next.candidate, 1)).None?
  {
    var id := MakeId(RunOf(zone, |subs|, next), next.candidate, 1);
    GetFacts(rows, id);
    forall k | 0 <= k < |rows| ensures rows[k].id != id {
      assert Holds(rows[k], zone, k, subs[k].candidate);
    }
  }

  lemma OneMorePromoted(rows: seq<Row>, after: seq<Row>, zone: int, subs: seq<Submission>, next: Submission)
    requires AllPromoted(rows, zone, subs) && |after| == |rows| + 1 && after[..|rows|] == rows
    requires Holds(after[|rows|], zone, |rows|, next.candidate)
    ensures AllPromoted(after, zone, subs + [next])
  {
    forall k | 0 <= k < |after| ensures Holds(after[k], zone, k, (subs + [next])[k].candidate) {
      if k < |rows| {
        assert after[..|rows|][k] == after[k] && Holds(rows[k], zone, k, subs[k].candidate);
      }
    }
  }

  lemma NextIsPromoted(
    rules: Rules, before: IdOrder, rows: seq<Row>, zone: int, subs: seq<Submission>, next: Submission)
    requires EarnApart(rules, subs + [next]) && AllPromoted(rows, zone, subs)
    ensures AllPromoted(Run(rules, before, rows, RunOf(zone, |subs|, next)).rows, zone, subs + [next])
  {
    var input := RunOf(zone, |subs|, next);
    NextKeyIsNew(rules, before, rows, zone, subs, next);
    NextIdIsNew(rows, zone, subs, next);
    assert EarnsIn(rules, next.candidate, next.view) by {
      assert (subs + [next])[|subs|] == next;
    }
    PromotesOne(rules, before, rows, input, next.candidate);
    OneMorePromoted(rows, Run(rules, before, rows, input).rows, zone, subs, next);
  }

  lemma FewerEarnApart(rules: Rules, subs: seq<Submission>)
    requires subs != [] && EarnApart(rules, subs)
    ensures EarnApart(rules, subs[..|subs| - 1]) && subs[..|subs| - 1] + [subs[|subs| - 1]] == subs
  {
    var n := |subs| - 1;
    forall k | 0 <= k < n ensures EarnsIn(rules, subs[..n][k].candidate, subs[..n][k].view) {
      assert subs[..n][k] == subs[k];
    }
  }

  lemma {:induction false} RunsPromoteAll(rules: Rules, before: IdOrder, zone: int, subs: seq<Submission>)
    requires EarnApart(rules, subs)
    ensures AllPromoted(Execute(rules, before, [], Runs(zone, subs)), zone, subs)
  {
    if subs != [] {
      var n := |subs| - 1;
      var ops := Runs(zone, subs[..n]);
      FewerEarnApart(rules, subs);
      RunsPromoteAll(rules, before, zone, subs[..n]);
      NextIsPromoted(rules, before, Execute(rules, before, [], ops), zone, subs[..n], subs[n]);
      assert Runs(zone, subs)[..|ops|] == ops;
    }
  }

  lemma {:induction false} AllArePromotes(rows: seq<Row>, zone: int)
    requires forall k :: 0 <= k < |rows| ==> PromotedIn(rows[k], zone)
    ensures Promotes(rows, zone) == rows
  {
    if rows != [] {
      var n := |rows| - 1;
      forall k | 0 <= k < n ensures PromotedIn(rows[..n][k], zone) {
        assert rows[..n][k] == rows[k];
      }
      AllArePromotes(rows[..n], zone);
    }
  }

  /** Sound, with unique keys and more promotes than the window shows, so that some next run repeats a key. */
  ghost predicate Outgrown(rules: Rules, before: IdOrder, rows: seq<Row>, zone: int) {
    && TableOk(rules, rows) && UniqueKeys(rules, rows, zone)
    && !WindowCovers(rows, zone) && !EveryRunKeepsKeysUnique(rules, before, rows, zone)
  }

  /**
   * Any more than 200 candidates that earn promotion under different keys outgrow the window, whatever the
   * rules: after a run of each, some next run promotes a statement twice.
   */
  lemma WindowIsOutgrown(rules: Rules, before: IdOrder, zone: int, subs: seq<Submission>)
    requires |subs| > RECENT_LIMIT && EarnApart(rules, subs)
    ensures Outgrown(rules, before, Execute(rules, before, [], Runs(zone, subs)), zone)
  {
    var rows := Execute(rules, before, [], Runs(zone, subs));
    RunsPromoteAll(rules, before, zone, subs);
    ReachableTablesAreSound(rules, before, Runs(zone, subs));
    forall k | 0 <= k < |rows| ensures PromotedIn(rows[k], zone) {
      assert Holds(rows[k], zone, k, subs[k].candidate);
    }
    AllArePromotes(rows, zone);
    forall i, j | Promoted(rows, zone, i) && Promoted(rows, zone, j) && i != j
      ensures KeyOf(rules, rows[i]) != KeyOf(rules, rows[j])
    {
      assert Holds(rows[i], zone, i, subs[i].candidate) && Holds(rows[j], zone, j, subs[j].candidate);
      assert rules.normalize(subs[i].candidate.statement) != rules.normalize(subs[j].candidate.statement);
    }
    KeysStayUniqueIff(rules, before, rows, zone);
  }

  ghost function ViewOf(rules: Rules, c: Candidate): (view: string)
    requires EarnsPromotion(rules, c)
    ensures EarnsIn(rules, c, view)
  {
    var view :| EarnsIn(rules, c, view);
    view
  }

  /** The promotes of a sound table, submitted again in views they pass in. */
  ghost function Resubmitted(rules: Rules, rows: seq<Row>): (subs: seq<Submission>)
    requires forall k :: 0 <= k < |rows| ==> EarnsPromotion(rules, rows[k].candidate)
    ensures |subs| == |rows|
    ensures forall k :: 0 <= k < |rows| ==>
      subs[k].candidate == rows[k].candidate && EarnsIn(rules, subs[k].candidate, subs[k].view)
  {
    seq(|rows|, k requires 0 <= k < |rows| => Submission(rows[k].candidate, ViewOf(rules, rows[k].candidate)))
  }

  /** Only such candidates make a zone outgrow the window. */
  lemma OutgrownHasEarned(rules: Rules, rows: seq<Row>, zone: int) returns (subs: seq<Submission>)
    requires TableOk(rules, rows) && UniqueKeys(rules, rows, zone) && !WindowCovers(rows, zone)
    ensures |subs| > RECENT_LIMIT && EarnApart(rules, subs)
  {
    var all := Promotes(rows, zone);
    PromotesFacts(rows, zone);
    PromotesKeysDiffer(rules, rows, zone);
    forall k | 0 <= k < |all| ensures EarnsPromotion(rules, all[k].candidate) {
      assert all[k] in all;
      var i :| 0 <= i < |rows| && rows[i] == all[k];
      assert RowOk(rules, rows[i]);
    }
    subs := Resubmitted(rules, all);
    forall j, k | 0 <= j < k < |subs|
      ensures rules.normalize(subs[j].candidate.statement) != rules.normalize(subs[k].candidate.statement)
    {
      assert KeyOf(rules, all[j]) != KeyOf(rules, all[k]);
    }
  }

  /** Some run of operations makes the zone outgrow the window. */
  ghost predicate CanOutgrow(rules: Rules, before: IdOrder, zone: int) {
    exists ops :: Outgrown(rules, before, Execute(rules, before, [], ops), zone)
  }

  /** Under given rules a zone can outgrow the window exactly when 201 candidates can earn promotion apart. */
  lemma CanOutgrowIff(rules: Rules, before: IdOrder, zone: int)
    ensures CanOutgrow(rules, before, zone) <==> exists subs :: |subs| > RECENT_LIMIT && EarnApart(rules, subs)
  {
    if subs :| |subs| > RECENT_LIMIT && EarnApart(rules, subs) {
      WindowIsOutgrown(rules, before, zone, subs);
    }
    if ops :| Outgrown(rules, before, Execute(rules, before, [], ops), zone) {
      var subs := OutgrownHasEarned(rules, Execute(rules, before, [], ops), zone);
    }
  }

  // ----- such candidates under simple rules -----

  /** Rules under which text is its own key, nothing is secret, and every candidate is kept. */
  const PLAIN := Rules(s => s, s => s, s => false, s => [], (c, view) => true)

  function Statement(n: nat): string { seq(n + 8, i => 'a') }

  /** A decision that quotes itself. */
  function SelfQuoted(n: nat): Candidate { Candidate(Decision, Statement(n), [Citation(Statement(n), 0, 0)], 1.0) }

  lemma SelfQuotedEarns(n: nat)
    ensures EarnsIn(PLAIN, SelfQuoted(n), Statement(n))
  {
    var s, c := Statement(n), SelfQuoted(n);
    assert OccursAt(s, s, 0) by {
      assert s[0..0 + |s|] == s;
    }
    assert c.citations[..0] == [];
    assert Quotes(PLAIN, []) == [];
    assert Quotes(PLAIN, c.citations) == [s];
    assert [s][..0] == [];
    assert LongestNormal(PLAIN, []) == 0 && LongestNormal(PLAIN, [s]) == |s|;
    assert Contains(PLAIN, s, [s][0]);
    assert Ground(PLAIN, s, c.citations) == Containment;
  }

  lemma PlainWindowIsOutgrown(before: IdOrder, zone: int)
    ensures CanOutgrow(PLAIN, before, zone)
  {
    var subs := seq(RECENT_LIMIT + 1, k requires 0 <= k => Submission(SelfQuoted(k), Statement(k)));
    forall k | 0 <= k < |subs| ensures EarnsIn(PLAIN, subs[k].candidate, subs[k].view) {
      SelfQuotedEarns(k);
    }
    forall j, k | 0 <= j < k < |subs|
      ensures PLAIN.normalize(subs[j].candidate.statement) != PLAIN.normalize(subs[k].candidate.statement)
    {
      assert |PLAIN.normalize(subs[j].candidate.statement)| == j + 8;
      assert |PLAIN.normalize(subs[k].candidate.statement)| == k + 8;
    }
    CanOutgrowIff(PLAIN, before, zone);
  }
}
