/** Cursor-paged pulls over a log that keeps growing between pages. */
module SyncPull {
  import opened Wrappers
  import opened Ordering
  import opened Sync
  import opened SyncProtocol

  /** A row of the `UNION ALL` over both tables. */
  datatype PullRow = PullRow(kind: Kind, sequence: nat, id: RecordId, recordedAt: Time, body: int)

  /** `ORDER BY zone_sequence ASC, record_id ASC` */
  predicate RowBefore(a: PullRow, b: PullRow) {
    a.sequence < b.sequence || (a.sequence == b.sequence && a.id < b.id)
  }

  function RowOf(ref: Ref, stored: Stored): PullRow {
    PullRow(ref.kind, stored.sequence, ref.id, stored.recordedAt, stored.body)
  }

  /** The rows the `WHERE` clauses of a pull select. */
  ghost function Matching(db: Db, zone: ZoneId, after: int, recordedAfter: Time): set<PullRow> {
    set ref | ref in db.records && ref.zone == zone
        && db.records[ref].sequence > after && db.records[ref].recordedAt > recordedAfter
      :: RowOf(ref, db.records[ref])
  }

  /** The answer of the query, before its `LIMIT`. */
  ghost function Selected(db: Db, zone: ZoneId, after: int, recordedAfter: Time): seq<PullRow> {
    OrderBy(Matching(db, zone, after, recordedAfter), RowBefore)
  }

  datatype Page = Page(events: seq<PullRow>, erasures: seq<PullRow>, hasMore: bool, cursor: Option<nat>)

  function OfKind(rows: seq<PullRow>, kind: Kind): seq<PullRow> {
    if rows == [] then []
    else
      var n := |rows| - 1;
      if rows[n].kind == kind then OfKind(rows[..n], kind) + [rows[n]] else OfKind(rows[..n], kind)
  }

  function PageOf(rows: seq<PullRow>, limit: int): Page {
    var page := Take(rows, limit);
    Page(OfKind(page, EventRecord), OfKind(page, ErasureRecord), |rows| > limit,
         if page == [] then None else Some(page[|page| - 1].sequence))
  }

  /** `handlePull` after its query, which asked for one row more than the limit. */
  method BuildPage(rows: seq<PullRow>, limit: int) returns (page: Page)
    requires limit >= 1 && |rows| <= limit + 1
    ensures page == PageOf(rows, limit)
  {
    var pageRows := if |rows| <= limit then rows else rows[..limit];
    var events: seq<PullRow>, erasures: seq<PullRow> := [], [];
    for i := 0 to |pageRows|
      invariant events == OfKind(pageRows[..i], EventRecord) && erasures == OfKind(pageRows[..i], ErasureRecord)
    {
      assert pageRows[..i + 1][..i] == pageRows[..i];
      if pageRows[i].kind == EventRecord {
        events := events + [pageRows[i]];
      } else {
        erasures := erasures + [pageRows[i]];
      }
    }
    assert pageRows[..|pageRows|] == pageRows;
    var cursor := if pageRows == [] then None else Some(pageRows[|pageRows| - 1].sequence);
    return Page(events, erasures, |rows| > limit, cursor);
  }

  // ----- the order of a query -----

  lemma RowsOrder()
    ensures WeakOrder(RowBefore)
  {
    forall a: PullRow, b: PullRow, c: PullRow ensures Ranks(RowBefore, a, b, c) {
    }
  }

  /** The record a selected row was read from. */
  lemma RefOfRow(db: Db, zone: ZoneId, after: int, recordedAfter: Time, x: PullRow) returns (ref: Ref)
    requires x in Matching(db, zone, after, recordedAfter)
    ensures ref in db.records && ref.zone == zone && ref.kind == x.kind && ref.id == x.id
    ensures db.records[ref].sequence == x.sequence && x == RowOf(ref, db.records[ref])
  {
    ref :| ref in db.records && ref.zone == zone && RowOf(ref, db.records[ref]) == x;
    assert RowOf(ref, db.records[ref]).sequence == x.sequence;
  }

  lemma SequenceNamesTheRow(db: Db, zone: ZoneId, after: int, recordedAfter: Time, a: PullRow, b: PullRow)
    requires DbInv(db)
    requires a in Matching(db, zone, after, recordedAfter) && b in Matching(db, zone, after, recordedAfter)
    ensures a.sequence == b.sequence ==> a == b
  {
    var p := RefOfRow(db, zone, after, recordedAfter, a);
    var q := RefOfRow(db, zone, after, recordedAfter, b);
    assert Unshared(db, p, q);
  }

  /** Sequences are unique within a zone, so the query has one answer, strictly in sequence order. */
  lemma SelectedFacts(db: Db, zone: ZoneId, after: int, recordedAfter: Time)
    requires DbInv(db)
    ensures var rows := Selected(db, zone, after, recordedAfter);
      && (forall i, j :: 0 <= i < j < |rows| ==> rows[i].sequence < rows[j].sequence)
      && (forall x :: x in rows <==> x in Matching(db, zone, after, recordedAfter))
  {
    SelectedLists(db, zone, after, recordedAfter);
    SelectedAscends(db, zone, after, recordedAfter);
  }

  lemma SelectedLists(db: Db, zone: ZoneId, after: int, recordedAfter: Time)
    requires DbInv(db)
    ensures var rows := Selected(db, zone, after, recordedAfter);
      && Ascending(rows, RowBefore)
      && forall x :: x in rows <==> x in Matching(db, zone, after, recordedAfter)
  {
    var S := Matching(db, zone, after, recordedAfter);
    RowsOrder();
    forall a, b | a in S && b in S ensures Apart(RowBefore, a, b) {
      SequenceNamesTheRow(db, zone, after, recordedAfter, a, b);
    }
    OrderByLists(S, RowBefore);
  }

  lemma SelectedAscends(db: Db, zone: ZoneId, after: int, recordedAfter: Time)
    requires DbInv(db)
    ensures var rows := Selected(db, zone, after, recordedAfter);
      forall i, j :: 0 <= i < j < |rows| ==> rows[i].sequence < rows[j].sequence
  {
    var rows := Selected(db, zone, after, recordedAfter);
    SelectedLists(db, zone, after, recordedAfter);
    forall i, j | 0 <= i < j < |rows| ensures rows[i].sequence < rows[j].sequence {
      assert RowBefore(rows[i], rows[j]) && rows[i] in rows && rows[j] in rows;
      SequenceNamesTheRow(db, zone, after, recordedAfter, rows[i], rows[j]);
      RowsOrder();
      assert Ranks(RowBefore, rows[i], rows[i], rows[i]);
    }
  }

  /** The strictly sorted listing of the matching rows is the answer of the query. */
  lemma SelectedIs(db: Db, zone: ZoneId, after: int, recordedAfter: Time, rows: seq<PullRow>)
    requires forall i, j :: 0 <= i < j < |rows| ==> rows[i].sequence < rows[j].sequence
    requires forall x :: x in rows <==> x in Matching(db, zone, after, recordedAfter)
    ensures rows == Selected(db, zone, after, recordedAfter)
  {
    RowsOrder();
    OrderByIs(Matching(db, zone, after, recordedAfter), RowBefore, rows);
  }

  // ----- a pull session -----

  /** A client that pulls until `has_more` is false; `dbs` are the tables at each of its pulls. */
  datatype Query = Query(zone: ZoneId, recordedAfter: Time, limit: int)

  ghost function Rows(db: Db, q: Query, after: int): seq<PullRow> {
    Take(Selected(db, q.zone, after, q.recordedAfter), q.limit)
  }

  ghost predicate HasMore(db: Db, q: Query, after: int) { |Selected(db, q.zone, after, q.recordedAfter)| > q.limit }

  /** The cursor the client sends next: the last sequence of the page, or the old one when it was empty. */
  ghost function NextCursor(db: Db, q: Query, after: int): int {
    var rows := Rows(db, q, after);
    if rows == [] then after else rows[|rows| - 1].sequence
  }

  /** The rows of all pages, in the order received. */
  ghost function Session(dbs: seq<Db>, q: Query, after: int): seq<PullRow> {
    if dbs == [] then []
    else Rows(dbs[0], q, after) + Session(dbs[1..], q, NextCursor(dbs[0], q, after))
  }

  /** The client stops exactly at the first page that says there is no more. */
  ghost predicate StopsWhenDone(dbs: seq<Db>, q: Query, after: int) {
    && dbs != []
    && if HasMore(dbs[0], q, after) then StopsWhenDone(dbs[1..], q, NextCursor(dbs[0], q, after)) else |dbs| == 1
  }

  ghost predicate Growing(dbs: seq<Db>) {
    && (forall i :: 0 <= i < |dbs| ==> DbInv(dbs[i]))
    && (forall i :: 0 < i < |dbs| ==> Extends(dbs[i], dbs[i - 1]))
  }

  lemma {:induction false} LastExtendsFirst(dbs: seq<Db>)
    requires dbs != [] && Growing(dbs)
    ensures Extends(dbs[|dbs| - 1], dbs[0])
  {
    if |dbs| > 1 {
      var rest := dbs[..|dbs| - 1];
      LastExtendsFirst(rest);
      ExtendsTransitive(dbs[|dbs| - 1], dbs[|dbs| - 2], dbs[0]);
    }
  }

  /**
   * A full page cannot hide a row: everything up to its cursor that matches, even in a later state of the
   * tables, is on the page.
   */
  lemma PageHoldsAllUpToCursor(db: Db, last: Db, q: Query, after: int, x: PullRow)
    requires DbInv(db) && Extends(last, db) && q.limit >= 1 && HasMore(db, q, after)
    ensures x in Rows(db, q, after) <==>
      x in Matching(last, q.zone, after, q.recordedAfter) && x.sequence <= NextCursor(db, q, after)
    ensures after < NextCursor(db, q, after)
  {
    FullPage(db, q, after);
    if x in Rows(db, q, after) {
      PageRowIsUpToCursor(db, q, after, x);
      MatchingSurvives(db, last, q, after, x);
    }
    if x in Matching(last, q.zone, after, q.recordedAfter) && x.sequence <= NextCursor(db, q, after) {
      OldRowsAreOld(db, last, q, after, x);
      UpToCursorIsOnPage(db, q, after, x);
    }
  }

  /** The cursor of a full page is the sequence of its last row, within the counter. */
  lemma FullPage(db: Db, q: Query, after: int)
    requires DbInv(db) && q.limit >= 1 && HasMore(db, q, after)
    ensures var all := Selected(db, q.zone, after, q.recordedAfter);
      Rows(db, q, after) == all[..q.limit] && NextCursor(db, q, after) == all[q.limit - 1].sequence
    ensures after < NextCursor(db, q, after) <= Counter(db, q.zone)
  {
    var all := Selected(db, q.zone, after, q.recordedAfter);
    SelectedFacts(db, q.zone, after, q.recordedAfter);
    assert all[q.limit - 1] in all;
    CursorWithinCounter(db, q, after, all[q.limit - 1]);
  }

  lemma PageRowIsUpToCursor(db: Db, q: Query, after: int, x: PullRow)
    requires DbInv(db) && q.limit >= 1 && HasMore(db, q, after) && x in Rows(db, q, after)
    ensures x in Matching(db, q.zone, after, q.recordedAfter) && x.sequence <= NextCursor(db, q, after)
  {
    var all, page := Selected(db, q.zone, after, q.recordedAfter), Rows(db, q, after);
    FullPage(db, q, after);
    SelectedFacts(db, q.zone, after, q.recordedAfter);
    var i :| 0 <= i < |page| && page[i] == x;
    assert all[i] == x && x in all;
  }

  lemma UpToCursorIsOnPage(db: Db, q: Query, after: int, x: PullRow)
    requires DbInv(db) && q.limit >= 1 && HasMore(db, q, after)
    requires x in Matching(db, q.zone, after, q.recordedAfter) && x.sequence <= NextCursor(db, q, after)
    ensures x in Rows(db, q, after)
  {
    var all, page := Selected(db, q.zone, after, q.recordedAfter), Rows(db, q, after);
    FullPage(db, q, after);
    SelectedFacts(db, q.zone, after, q.recordedAfter);
    var i :| 0 <= i < |all| && all[i] == x;
    assert i <= q.limit - 1 && page[i] == x;
  }

  lemma CursorWithinCounter(db: Db, q: Query, after: int, x: PullRow)
    requires DbInv(db) && x in Matching(db, q.zone, after, q.recordedAfter)
    ensures x.sequence <= Counter(db, q.zone)
  {
    var ref := RefOfRow(db, q.zone, after, q.recordedAfter, x);
    assert RecordOk(db, ref);
  }

  lemma MatchingSurvives(db: Db, last: Db, q: Query, after: int, x: PullRow)
    requires Extends(last, db) && x in Matching(db, q.zone, after, q.recordedAfter)
    ensures x in Matching(last, q.zone, after, q.recordedAfter)
  {
  }

  /** A record numbered within the counter of `db` was already there. */
  lemma OldRowsAreOld(db: Db, last: Db, q: Query, after: int, x: PullRow)
    requires Extends(last, db) && x in Matching(last, q.zone, after, q.recordedAfter)
    requires x.sequence <= Counter(db, q.zone)
    ensures x in Matching(db, q.zone, after, q.recordedAfter)
  {
    var ref := RefOfRow(last, q.zone, after, q.recordedAfter, x);
    assert ref in db.records;
  }

  lemma CursorOnlyNarrows(db: Db, q: Query, after: int, cursor: int, x: PullRow)
    requires after <= cursor
    ensures x in Matching(db, q.zone, cursor, q.recordedAfter) <==>
      x in Matching(db, q.zone, after, q.recordedAfter) && x.sequence > cursor
  {
  }

  lemma RestGrows(dbs: seq<Db>)
    requires Growing(dbs) && |dbs| > 1
    ensures Growing(dbs[1..]) && dbs[1..][|dbs| - 2] == dbs[|dbs| - 1]
  {
    var rest := dbs[1..];
    forall i | 0 < i < |rest| ensures Extends(rest[i], rest[i - 1]) {
      assert rest[i] == dbs[i + 1] && rest[i - 1] == dbs[i];
    }
  }

  /**
   * Pulling pages from any cursor until `has_more` is false, with pushes landing between the pages,
   * returns every matching event and erasure of the final log exactly once and in sequence order.
   */
  lemma {:induction false} SessionReturnsEverythingOnce(dbs: seq<Db>, q: Query, after: int)
    requires Growing(dbs) && q.limit >= 1 && StopsWhenDone(dbs, q, after)
    ensures Session(dbs, q, after) == Selected(dbs[|dbs| - 1], q.zone, after, q.recordedAfter)
  {
    var db, last := dbs[0], dbs[|dbs| - 1];
    if HasMore(db, q, after) {
      var cursor := NextCursor(db, q, after);
      var page, rest := Rows(db, q, after), Session(dbs[1..], q, cursor);
      RestGrows(dbs);
      SessionReturnsEverythingOnce(dbs[1..], q, cursor);
      LastExtendsFirst(dbs);
      PagesJoin(db, last, q, after);
    } else {
      assert Session(dbs[1..], q, NextCursor(db, q, after)) == [];
    }
  }

  lemma Concatenated(page: seq<PullRow>, rest: seq<PullRow>, cursor: int)
    requires forall i, j :: 0 <= i < j < |page| ==> page[i].sequence < page[j].sequence
    requires forall i, j :: 0 <= i < j < |rest| ==> rest[i].sequence < rest[j].sequence
    requires (forall x :: x in page ==> x.sequence <= cursor) && (forall x :: x in rest ==> x.sequence > cursor)
    ensures forall i, j :: 0 <= i < j < |page + rest| ==> (page + rest)[i].sequence < (page + rest)[j].sequence
  {
    forall i, j | 0 <= i < |page| && 0 <= j < |rest| ensures page[i].sequence < rest[j].sequence {
      assert page[i] in page && rest[j] in rest;
    }
  }

  lemma PagesJoin(db: Db, last: Db, q: Query, after: int)
    requires DbInv(db) && DbInv(last) && Extends(last, db) && q.limit >= 1 && HasMore(db, q, after)
    ensures Rows(db, q, after) + Selected(last, q.zone, NextCursor(db, q, after), q.recordedAfter)
      == Selected(last, q.zone, after, q.recordedAfter)
  {
    var cursor := NextCursor(db, q, after);
    var page, rest := Rows(db, q, after), Selected(last, q.zone, cursor, q.recordedAfter);
    var whole := page + rest;
    SelectedFacts(db, q.zone, after, q.recordedAfter);
    SelectedFacts(last, q.zone, cursor, q.recordedAfter);
    forall x ensures x in whole <==> x in Matching(last, q.zone, after, q.recordedAfter) {
      PageHoldsAllUpToCursor(db, last, q, after, x);
      CursorOnlyNarrows(last, q, after, cursor, x);
    }
    forall x | x in page ensures x.sequence <= cursor {
      PageHoldsAllUpToCursor(db, last, q, after, x);
    }
    Concatenated(page, rest, cursor);
    SelectedIs(last, q.zone, after, q.recordedAfter, whole);
  }

  /** The query reads one row beyond the limit; that is enough to know the page, its cursor and `has_more`. */
  lemma OneExtraRowSuffices(db: Db, q: Query, after: int)
    requires q.limit >= 1
    ensures var page := PageOf(Take(Selected(db, q.zone, after, q.recordedAfter), q.limit + 1), q.limit);
      && page.hasMore == HasMore(db, q, after)
      && page.events == OfKind(Rows(db, q, after), EventRecord)
      && page.erasures == OfKind(Rows(db, q, after), ErasureRecord)
      && NextCursor(db, q, after) == (if page.cursor.Some? then page.cursor.value else after)
  {
    var all := Selected(db, q.zone, after, q.recordedAfter);
    assert Take(Take(all, q.limit + 1), q.limit) == Take(all, q.limit);
  }

  /** The tables at each pull of a client, while the pushes of `bursts[i]` land before its pull `i`. */
  ghost function Snapshots(w: World, bursts: seq<seq<Step>>): seq<Db>
    decreases |bursts|
  {
    if bursts == [] then []
    else [Run(w, bursts[0]).db] + Snapshots(Run(w, bursts[0]), bursts[1..])
  }

  lemma {:induction false} SnapshotsGrow(w: World, bursts: seq<seq<Step>>)
    requires WorldInv(w)
    ensures Growing(Snapshots(w, bursts))
    ensures bursts != [] ==> Extends(Snapshots(w, bursts)[0], w.db)
    decreases |bursts|
  {
    if bursts != [] {
      var v := Run(w, bursts[0]);
      RunKeeps(w, bursts[0]);
      LaterRunsExtend(w, bursts[0]);
      SnapshotsGrow(v, bursts[1..]);
      var dbs, rest := Snapshots(w, bursts), Snapshots(v, bursts[1..]);
      assert forall i :: 0 < i < |dbs| ==> dbs[i] == rest[i - 1];
    }
  }

  /**
   * The same over the push protocol itself: whatever pushes interleave between the pages of a pull that
   * runs until `has_more` is false, the pages together are the matching log at the last pull, in order.
   */
  lemma PullSeesTheLogOnce(bursts: seq<seq<Step>>, q: Query, after: int)
    requires bursts != [] && q.limit >= 1
    requires StopsWhenDone(Snapshots(EMPTY, bursts), q, after)
    ensures var dbs := Snapshots(EMPTY, bursts);
      Session(dbs, q, after) == Selected(dbs[|dbs| - 1], q.zone, after, q.recordedAfter)
  {
    ReachableWorldsAreRight([]);
    SnapshotsGrow(EMPTY, bursts);
    SessionReturnsEverythingOnce(Snapshots(EMPTY, bursts), q, after);
  }

  /** A page's events and erasures are exactly its rows, split by table. */
  lemma {:induction false} PageLosesNothing(rows: seq<PullRow>)
    ensures multiset(OfKind(rows, EventRecord)) + multiset(OfKind(rows, ErasureRecord)) == multiset(rows)
  {
    if rows != [] {
      var n := |rows| - 1;
      PageLosesNothing(rows[..n]);
      assert rows == rows[..n] + [rows[n]];
    }
  }
}
