/**
 * What pushes store and are told, and what pulls hand out, told from the payloads pushed and the records kept:
 * which table a record lands in, what it holds, and which list of a page it comes back in.
 */
module SyncContents {
  import opened Wrappers
  import opened Ordering
  import opened Sync
  import opened SyncProtocol
  import opened SyncPull

  // ----- what a push asks for -----

  /** The request carries exactly this event and no erasure, or exactly this erasure and no event. */
  predicate Carries(r: PushRequest, kind: Kind, p: Payload) {
    match kind
    case EventRecord => r.events == [p] && r.erasures == []
    case ErasureRecord => r.events == [] && r.erasures == [p]
  }

  /** One record, of the zone it is pushed to. */
  ghost predicate WellFormed(r: PushRequest) { exists kind, p: Payload :: Carries(r, kind, p) && p.zone == r.zone }

  lemma CarriesIsPayload(r: PushRequest, kind: Kind, p: Payload)
    requires Carries(r, kind, p) && p.zone == r.zone
    ensures Validate(r).None? && RefOf(r) == Ref(kind, r.zone, p.id) && PayloadOf(r) == p
  {
  }

  /** What is wrong with a push: not one record, or one record of another zone. */
  lemma ValidIffWellFormed(r: PushRequest)
    ensures Validate(r).None? <==> WellFormed(r)
    ensures Validate(r) == Some(NotOneRecord) <==> |r.events| + |r.erasures| != 1
    ensures Validate(r) == Some(ZoneDiffers) <==> exists kind, p: Payload :: Carries(r, kind, p) && p.zone != r.zone
  {
    if |r.events| == 1 && |r.erasures| == 0 {
      assert Carries(r, EventRecord, r.events[0]);
    } else if |r.events| == 0 && |r.erasures| == 1 {
      assert Carries(r, ErasureRecord, r.erasures[0]);
    }
  }

  // ----- one push -----

  /** The tables before and after a push of this payload: one record more, under the next number of its zone. */
  ghost predicate Adds(before: Db, after: Db, r: PushRequest, kind: Kind, p: Payload) {
    var n := (if r.zone in before.counters then before.counters[r.zone] else 0) + 1;
    && after.records == before.records[Ref(kind, r.zone, p.id) := Stored(n, r.key, p.recordedAt, p.body, n)]
    && after.counters == before.counters[r.zone := n]
    && after.requests.Keys == before.requests.Keys + {(r.zone, r.key)}
    && (forall at :: at in before.requests && at != (r.zone, r.key) ==> after.requests[at] == before.requests[at])
    && after.requests[(r.zone, r.key)].fingerprint == r.fingerprint
    && after.requests[(r.zone, r.key)].requestId == r.requestId
  }

  /** An answer that names this record and number, to this request. */
  predicate NamesIt(answer: Answer, status: PushStatus, requestId: int, kind: Kind, id: RecordId, n: nat) {
    && answer.Result? && answer.result.status == status && answer.result.requestId == requestId
    && answer.result.lastSequence == Some(n)
    && answer.result.eventIds == (if kind == EventRecord then [id] else [])
    && answer.result.erasureIds == (if kind == ErasureRecord then [id] else [])
  }

  predicate SaysConflict(answer: Answer, requestId: int) {
    && answer.Result? && answer.result.status.ConflictingPush? && answer.result.requestId == requestId
    && answer.result.eventIds == [] && answer.result.erasureIds == [] && answer.result.lastSequence.None?
  }

  /** The answer names the record of the key again. */
  ghost predicate Replays(db: Db, r: PushRequest, answer: Answer) {
    exists ref ::
      Keeps(db, ref, r.zone, r.key)
      && NamesIt(answer, ReplayedPush, r.requestId, ref.kind, ref.id, db.records[ref].sequence)
  }

  /**
   * A push that meets no other. A malformed one is refused; a known key is replayed or conflicts by its
   * fingerprint; a known record id is refused; otherwise, unless the batch is undone, the payload is stored as
   * pushed and the answer names it, as accepted, or as a replay when the batch reported an error.
   */
  lemma LonePush(db: Db, r: PushRequest, outcome: Outcome, kind: Kind, p: Payload)
    requires DbInv(db) && Carries(r, kind, p) && p.zone == r.zone
    ensures var (after, answer) := PushAlone(db, r, outcome);
      if (r.zone, r.key) in db.requests then
        && after == db
        && if db.requests[(r.zone, r.key)].fingerprint != r.fingerprint then SaysConflict(answer, r.requestId)
           else Replays(db, r, answer)
      else if Ref(kind, r.zone, p.id) in db.records then after == db && answer == RowConflict
      else if outcome.Aborts? then after == db && answer == InternalError
      else if outcome.AbortsOnConstraint? then after == db && answer == RowConflict
      else
        && Adds(db, after, r, kind, p)
        && NamesIt(answer, if outcome.Commits? then AcceptedPush else ReplayedPush, r.requestId, kind, p.id,
                   (if r.zone in db.counters then db.counters[r.zone] else 0) + 1)
  {
    CarriesIsPayload(r, kind, p);
    ViolationMeansDuplicate(db, r);
    if At(r) in db.requests && db.requests[At(r)].fingerprint == r.fingerprint {
      KnownKeyIsReplayed(db, r);
    }
  }

  lemma KnownKeyIsReplayed(db: Db, r: PushRequest)
    requires DbInv(db) && At(r) in db.requests && db.requests[At(r)].fingerprint == r.fingerprint
    ensures Replays(db, r, ReplayOrConflict(db.requests[At(r)], r))
  {
    assert RequestOk(db, At(r));
    var ref :| Keeps(db, ref, r.zone, r.key);
    assert RecordOk(db, ref);
  }

  // ----- what the records hold -----

  /** This record is the payload of this request, kept in the table of its kind. */
  predicate HoldsPayload(db: Db, ref: Ref, r: PushRequest, p: Payload) {
    && ref in db.records && Carries(r, ref.kind, p) && ref == Ref(ref.kind, p.zone, p.id) && p.zone == r.zone
    && db.records[ref].key == r.key && db.records[ref].recordedAt == p.recordedAt && db.records[ref].body == p.body
  }

  /** The request of some client that committed its key. */
  ghost predicate PushedBy(w: World, ref: Ref, c: ClientId) {
    && c in w.clients && At(w.clients[c].request) in w.committer && w.committer[At(w.clients[c].request)] == c
    && exists p :: HoldsPayload(w.db, ref, w.clients[c].request, p)
  }

  ghost predicate RecordsArePushed(w: World) {
    forall ref {:trigger ref in w.db.records} :: ref in w.db.records ==> exists c :: PushedBy(w, ref, c)
  }

  lemma StillPushed(w: World, s: Step, ref: Ref, c: ClientId)
    requires WorldInv(w) && ref in w.db.records && PushedBy(w, ref, c)
    ensures PushedBy(Apply(w, s), ref, c)
  {
    var v, r := Apply(w, s), w.clients[c].request;
    ApplyKeeps(w, s);
    var p :| HoldsPayload(w.db, ref, r, p);
    assert v.clients[c].request == r && v.committer[At(r)] == c;
    assert HoldsPayload(v.db, ref, r, p);
  }

  lemma NewIsPushed(w: World, s: Step, ref: Ref)
    requires WorldInv(w) && ref in Apply(w, s).db.records && ref !in w.db.records
    ensures PushedBy(Apply(w, s), ref, s.c)
  {
    var r := w.clients[s.c].request;
    ValidIffWellFormed(r);
    var kind, p :| Carries(r, kind, p) && p.zone == r.zone;
    CarriesIsPayload(r, kind, p);
    assert HoldsPayload(Apply(w, s).db, ref, r, p);
  }

  lemma {:induction false} AlwaysPushed(steps: seq<Step>)
    ensures RecordsArePushed(Run(EMPTY, steps))
  {
    if steps != [] {
      var n := |steps| - 1;
      var w, v := Run(EMPTY, steps[..n]), Run(EMPTY, steps);
      AlwaysPushed(steps[..n]);
      ReachableWorldsAreRight(steps[..n]);
      forall ref | ref in v.db.records ensures exists c :: PushedBy(v, ref, c) {
        if ref in w.db.records {
          var c :| PushedBy(w, ref, c);
          StillPushed(w, steps[n], ref, c);
        } else {
          NewIsPushed(w, steps[n], ref);
        }
      }
    }
  }

  /**
   * Under every interleaving a stored record is the payload of the one request that committed its key: in the
   * table of its kind, under its own id and zone, with its body and its recorded time.
   */
  lemma RecordsHoldPayloads(steps: seq<Step>, ref: Ref)
    requires ref in Run(EMPTY, steps).db.records
    ensures var w := Run(EMPTY, steps); exists c, p ::
      PushedBy(w, ref, c) && HoldsPayload(w.db, ref, w.clients[c].request, p)
  {
    var w := Run(EMPTY, steps);
    AlwaysPushed(steps);
    var c :| PushedBy(w, ref, c);
    var p :| HoldsPayload(w.db, ref, w.clients[c].request, p);
  }

  // ----- pages -----

  /** The rows of a page in its two lists: each in the list of its kind, and both in the order of the page. */
  ghost predicate SplitByKind(rows: seq<PullRow>, events: seq<PullRow>, erasures: seq<PullRow>) {
    && (forall x :: x in events <==> x in rows && x.kind == EventRecord)
    && (forall x :: x in erasures <==> x in rows && x.kind == ErasureRecord)
    && |events| + |erasures| == |rows|
    && (InSequence(rows) ==> InSequence(events) && InSequence(erasures))
  }

  predicate InSequence(rows: seq<PullRow>) {
    forall i, j :: 0 <= i < j < |rows| ==> rows[i].sequence < rows[j].sequence
  }

  lemma {:induction false} OfKindHas(rows: seq<PullRow>, kind: Kind)
    ensures forall x :: x in OfKind(rows, kind) <==> x in rows && x.kind == kind
  {
    if rows != [] {
      OfKindHas(rows[..|rows| - 1], kind);
      assert rows == rows[..|rows| - 1] + [rows[|rows| - 1]];
    }
  }

  lemma {:induction false} OfKindInSequence(rows: seq<PullRow>, kind: Kind)
    requires InSequence(rows)
    ensures InSequence(OfKind(rows, kind))
  {
    if rows != [] {
      var n := |rows| - 1;
      OfKindInSequence(rows[..n], kind);
      OfKindHas(rows[..n], kind);
      var rest := OfKind(rows[..n], kind);
      forall i | 0 <= i < |rest| ensures rest[i].sequence < rows[n].sequence {
        assert rest[i] in rest;
        var k :| 0 <= k < n && rows[..n][k] == rest[i];
      }
    }
  }

  lemma KindsAreSplit(rows: seq<PullRow>)
    ensures SplitByKind(rows, OfKind(rows, EventRecord), OfKind(rows, ErasureRecord))
  {
    var events, erasures := OfKind(rows, EventRecord), OfKind(rows, ErasureRecord);
    OfKindHas(rows, EventRecord);
    OfKindHas(rows, ErasureRecord);
    PageLosesNothing(rows);
    assert |multiset(events) + multiset(erasures)| == |rows|;
    if InSequence(rows) {
      OfKindInSequence(rows, EventRecord);
      OfKindInSequence(rows, ErasureRecord);
    }
  }

  /** What a pull hands out, from the rows its query found with one beyond the limit. */
  lemma PageIsSplit(rows: seq<PullRow>, limit: int)
    requires limit >= 1
    ensures var page := PageOf(rows, limit); var kept := rows[..Min(limit, |rows|)];
      && SplitByKind(kept, page.events, page.erasures)
      && (page.hasMore <==> |rows| > limit)
      && page.cursor == if kept == [] then None else Some(kept[|kept| - 1].sequence)
  {
    var kept := rows[..Min(limit, |rows|)];
    assert Take(rows, limit) == kept;
    KindsAreSplit(kept);
  }

  // ----- sessions -----

  /** A pull: the page for the first `limit` matching rows after the cursor. */
  ghost function PageAt(db: Db, q: Query, after: int): Page {
    PageOf(Take(Selected(db, q.zone, after, q.recordedAfter), q.limit + 1), q.limit)
  }

  function NextAfter(page: Page, after: int): int { if page.cursor.Some? then page.cursor.value else after }

  /** The pages of a client that follows the cursor of each page to the next. */
  ghost function Pages(dbs: seq<Db>, q: Query, after: int): seq<Page> {
    if dbs == [] then []
    else
      var page := PageAt(dbs[0], q, after);
      [page] + Pages(dbs[1..], q, NextAfter(page, after))
  }

  /** It stops at the first page that says there is no more. */
  predicate EndsThere(pages: seq<Page>) {
    && pages != [] && !pages[|pages| - 1].hasMore
    && forall i :: 0 <= i < |pages| - 1 ==> pages[i].hasMore
  }

  function AllEvents(pages: seq<Page>): seq<PullRow> {
    if pages == [] then [] else pages[0].events + AllEvents(pages[1..])
  }

  function AllErasures(pages: seq<Page>): seq<PullRow> {
    if pages == [] then [] else pages[0].erasures + AllErasures(pages[1..])
  }

  lemma PageAtIs(db: Db, q: Query, after: int)
    requires q.limit >= 1
    ensures var page := PageAt(db, q, after);
      && page.events == OfKind(Rows(db, q, after), EventRecord)
      && page.erasures == OfKind(Rows(db, q, after), ErasureRecord)
      && (page.hasMore <==> HasMore(db, q, after)) && NextAfter(page, after) == NextCursor(db, q, after)
  {
    OneExtraRowSuffices(db, q, after);
  }

  lemma {:induction false} OfKindAdds(s: seq<PullRow>, t: seq<PullRow>, kind: Kind)
    ensures OfKind(s + t, kind) == OfKind(s, kind) + OfKind(t, kind)
  {
    if t == [] {
      assert s + t == s && OfKind(s, kind) + [] == OfKind(s, kind);
    } else {
      var n := |t| - 1;
      assert s + t == (s + t[..n]) + [t[n]] && (s + t)[..|s| + n] == s + t[..n];
      OfKindAdds(s, t[..n], kind);
    }
  }

  lemma {:induction false} PagesAreTheSession(dbs: seq<Db>, q: Query, after: int)
    requires q.limit >= 1
    ensures |Pages(dbs, q, after)| == |dbs|
    ensures AllEvents(Pages(dbs, q, after)) == OfKind(Session(dbs, q, after), EventRecord)
    ensures AllErasures(Pages(dbs, q, after)) == OfKind(Session(dbs, q, after), ErasureRecord)
    decreases |dbs|
  {
    if dbs != [] {
      var page, rest := PageAt(dbs[0], q, after), dbs[1..];
      PageAtIs(dbs[0], q, after);
      PagesAreTheSession(rest, q, NextAfter(page, after));
      assert Pages(dbs, q, after)[1..] == Pages(rest, q, NextAfter(page, after));
      OfKindAdds(Rows(dbs[0], q, after), Session(rest, q, NextAfter(page, after)), EventRecord);
      OfKindAdds(Rows(dbs[0], q, after), Session(rest, q, NextAfter(page, after)), ErasureRecord);
    }
  }

  lemma {:induction false} EndsWhenDone(dbs: seq<Db>, q: Query, after: int)
    requires q.limit >= 1 && EndsThere(Pages(dbs, q, after))
    ensures StopsWhenDone(dbs, q, after)
    decreases |dbs|
  {
    var pages := Pages(dbs, q, after);
    var page := PageAt(dbs[0], q, after);
    PagesAreTheSession(dbs, q, after);
    PageAtIs(dbs[0], q, after);
    EndsLater(page, Pages(dbs[1..], q, NextAfter(page, after)));
    if page.hasMore {
      EndsWhenDone(dbs[1..], q, NextAfter(page, after));
    } else {
      PagesAreTheSession(dbs[1..], q, NextAfter(page, after));
    }
  }

  lemma EndsLater(page: Page, rest: seq<Page>)
    requires EndsThere([page] + rest)
    ensures if page.hasMore then EndsThere(rest) else rest == []
  {
    var pages := [page] + rest;
    assert pages[0] == page && forall i :: 0 <= i < |rest| ==> pages[i + 1] == rest[i];
  }

  /** The row a record comes back as, when a pull asks for it. */
  predicate IsRowOf(db: Db, ref: Ref, q: Query, after: int, x: PullRow) {
    && ref in db.records && ref.zone == q.zone
    && db.records[ref].sequence > after && db.records[ref].recordedAt > q.recordedAfter
    && x == PullRow(ref.kind, db.records[ref].sequence, ref.id, db.records[ref].recordedAt, db.records[ref].body)
  }

  /** Exactly the records of one kind that match, each once, in the order of their numbers. */
  ghost predicate ListsRecords(db: Db, q: Query, after: int, kind: Kind, rows: seq<PullRow>) {
    && InSequence(rows)
    && (forall x :: x in rows <==> exists ref :: IsRowOf(db, ref, q, after, x) && ref.kind == kind)
  }

  lemma MatchingIff(db: Db, q: Query, after: int, x: PullRow)
    ensures x in Matching(db, q.zone, after, q.recordedAfter) <==> exists ref :: IsRowOf(db, ref, q, after, x)
  {
    if ref :| IsRowOf(db, ref, q, after, x) {
      assert x == SyncPull.RowOf(ref, db.records[ref]);
    }
    if x in Matching(db, q.zone, after, q.recordedAfter) {
      var ref := RefOfRow(db, q.zone, after, q.recordedAfter, x);
      assert IsRowOf(db, ref, q, after, x);
    }
  }

  lemma SelectedListsRecords(db: Db, q: Query, after: int, kind: Kind)
    requires DbInv(db)
    ensures ListsRecords(db, q, after, kind, OfKind(Selected(db, q.zone, after, q.recordedAfter), kind))
  {
    var all := Selected(db, q.zone, after, q.recordedAfter);
    SelectedFacts(db, q.zone, after, q.recordedAfter);
    OfKindHas(all, kind);
    OfKindInSequence(all, kind);
    forall x ensures x in OfKind(all, kind) <==> exists ref :: IsRowOf(db, ref, q, after, x) && ref.kind == kind {
      RowOfKind(db, q, after, kind, x);
    }
  }

  lemma RowOfKind(db: Db, q: Query, after: int, kind: Kind, x: PullRow)
    ensures x in Matching(db, q.zone, after, q.recordedAfter) && x.kind == kind <==>
      exists ref :: IsRowOf(db, ref, q, after, x) && ref.kind == kind
  {
    MatchingIff(db, q, after, x);
  }

  /**
   * A client that pulls page after page until none is left, while pushes of the protocol land in between, is
   * handed as events exactly the matching events of the tables at its last pull, each once and in the order of
   * their numbers, and as erasures exactly the matching erasures.
   */
  lemma SessionSplitsTheLog(bursts: seq<seq<Step>>, q: Query, after: int)
    requires bursts != [] && q.limit >= 1
    requires EndsThere(Pages(Snapshots(EMPTY, bursts), q, after))
    ensures var dbs := Snapshots(EMPTY, bursts); var pages := Pages(dbs, q, after);
      && dbs != []
      && ListsRecords(dbs[|dbs| - 1], q, after, EventRecord, AllEvents(pages))
      && ListsRecords(dbs[|dbs| - 1], q, after, ErasureRecord, AllErasures(pages))
  {
    var dbs := Snapshots(EMPTY, bursts);
    EndsWhenDone(dbs, q, after);
    PagesAreTheSession(dbs, q, after);
    PullSeesTheLogOnce(bursts, q, after);
    ReachableWorldsAreRight([]);
    SnapshotsGrow(EMPTY, bursts);
    SelectedListsRecords(dbs[|dbs| - 1], q, after, EventRecord);
    SelectedListsRecords(dbs[|dbs| - 1], q, after, ErasureRecord);
  }
}
