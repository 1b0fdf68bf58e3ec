/**
 * The two scans over the columns of `agentic_jobs`, and what a bulk lease or a sweep achieves when
 * nothing interferes between its scan and its transaction.
 */
module JobScans {
  import opened Wrappers
  import opened Ordering
  import opened Jobs
  import opened JobTable

  type Key = (Time, JobId)

  predicate KeyBefore(a: Key, b: Key) { a.0 < b.0 || (a.0 == b.0 && a.1 < b.1) }

  lemma KeysOrder()
    ensures TotalOrder(KeyBefore)
  {
    forall a: Key, b: Key, c: Key ensures Ranks(KeyBefore, a, b, c) {
    }
    forall a: Key, b: Key ensures Apart(KeyBefore, a, b) {
    }
  }

  predicate InZone(zone: ZoneId, filter: Option<ZoneId>) { filter.None? || zone == filter.value }

  // ----- what the WHERE clauses select -----

  predicate DueByColumns(row: Row, filter: Option<ZoneId>, now: Time) {
    && InZone(row.zone, filter)
    && (row.state.Pending? || row.state.Leased?)
    && row.availableAt <= now
    && (!row.state.Leased? || (row.leaseExpiresAt.Some? && row.leaseExpiresAt.value <= now))
  }

  predicate SweptByColumns(row: Row, filter: Option<ZoneId>, now: Time) {
    && InZone(row.zone, filter)
    && ((row.state.Leased? && row.leaseExpiresAt.Some? && row.leaseExpiresAt.value <= now)
        || (row.state.Pending? && row.job.attempt >= row.job.maxAttempts))
  }

  /** While the index agrees, the scans select exactly the jobs that the re-check under the lock accepts. */
  lemma ColumnsTellTheTruth(id: JobId, row: Row, filter: Option<ZoneId>, now: Time)
    requires Indexed(id, row)
    ensures DueByColumns(row, filter, now) <==> InZone(row.job.zone, filter) && Leaseable(row.job, now)
    ensures SweptByColumns(row, filter, now) <==> InZone(row.job.zone, filter) && Reclaimable(row.job, now)
  {
  }

  ghost function Due(s: Store, filter: Option<ZoneId>, now: Time): set<Key> {
    set id | id in s.jobs && InZone(s.jobs[id].zone, filter) && Leaseable(s.jobs[id], now) ::
      (s.jobs[id].availableAt, id)
  }

  ghost function Overdue(s: Store, filter: Option<ZoneId>, now: Time): set<Key> {
    set id | id in s.jobs && InZone(s.jobs[id].zone, filter) && Reclaimable(s.jobs[id], now) ::
      (s.jobs[id].updatedAt, id)
  }

  ghost function DueRows(rows: map<JobId, Row>, filter: Option<ZoneId>, now: Time): set<Key> {
    set id | id in rows && DueByColumns(rows[id], filter, now) :: (rows[id].availableAt, id)
  }

  ghost function OverdueRows(rows: map<JobId, Row>, filter: Option<ZoneId>, now: Time): set<Key> {
    set id | id in rows && SweptByColumns(rows[id], filter, now) :: (rows[id].updatedAt, id)
  }

  /** The scans over the columns see what a scan over the records would see. */
  lemma ScansSeeTheRecords(rows: map<JobId, Row>, s: Store, filter: Option<ZoneId>, now: Time)
    requires IndexAgrees(rows) && s.jobs == (map id | id in rows :: rows[id].job)
    ensures DueRows(rows, filter, now) == Due(s, filter, now)
    ensures OverdueRows(rows, filter, now) == Overdue(s, filter, now)
  {
    forall id | id in rows
      ensures DueByColumns(rows[id], filter, now) <==> InZone(rows[id].job.zone, filter) && Leaseable(rows[id].job, now)
      ensures SweptByColumns(rows[id], filter, now) <==>
        InZone(rows[id].job.zone, filter) && Reclaimable(rows[id].job, now)
      ensures rows[id].availableAt == s.jobs[id].availableAt && rows[id].updatedAt == s.jobs[id].updatedAt
    {
      ColumnsTellTheTruth(id, rows[id], filter, now);
    }
  }

  function Ids(keys: seq<Key>): seq<JobId> {
    seq(|keys|, k requires 0 <= k < |keys| => keys[k].1)
  }

  /** `ORDER BY ... LIMIT ?`: the first `limit` selected ids, in order. */
  ghost function FirstIds(keys: set<Key>, limit: int): seq<JobId> {
    Ids(Take(OrderBy(keys, KeyBefore), limit))
  }

  /** One key per id. */
  ghost predicate KeyedById(keys: set<Key>) {
    forall a, b :: a in keys && b in keys && a.1 == b.1 ==> a == b
  }

  /** A limited scan holds distinct selected ids, as many as the limit allows. */
  lemma FirstIdsFacts(keys: set<Key>, limit: int)
    requires KeyedById(keys)
    ensures Distinct(FirstIds(keys, limit))
    ensures |FirstIds(keys, limit)| == Min(|keys|, Max(0, limit))
    ensures forall id :: id in FirstIds(keys, limit) ==> exists k :: k in keys && k.1 == id
  {
    KeysOrder();
    OrderByLists(keys, KeyBefore);
    var all := OrderBy(keys, KeyBefore);
    AscendingIsDistinct(all, KeyBefore);
    var first, ids := Take(all, limit), FirstIds(keys, limit);
    forall k | 0 <= k < |first| ensures first[k] == all[k] && first[k] in keys {
      assert all[k] in all;
    }
    forall a, b | 0 <= a < b < |first| ensures ids[a] != ids[b] {
      assert all[a] != all[b];
    }
    forall id | id in ids ensures exists k :: k in keys && k.1 == id {
      var k :| 0 <= k < |ids| && ids[k] == id;
      assert first[k] in keys;
    }
  }

  /** A key that a limited scan leaves out stands behind its end in the full order. */
  lemma OmittedPosition(keys: set<Key>, limit: int, k: Key) returns (m: nat)
    requires k in keys && k.1 !in FirstIds(keys, limit)
    ensures |FirstIds(keys, limit)| <= m < |OrderBy(keys, KeyBefore)| && OrderBy(keys, KeyBefore)[m] == k
    ensures |FirstIds(keys, limit)| == Max(0, limit)
  {
    KeysOrder();
    OrderByLists(keys, KeyBefore);
    var all, ids := OrderBy(keys, KeyBefore), FirstIds(keys, limit);
    m :| 0 <= m < |all| && all[m] == k;
    forall n | 0 <= n < |ids| ensures all[n] != k {
      assert ids[n] in ids && ids[n] == all[n].1;
    }
  }

  /** What a limited scan leaves out comes after everything it holds, and only when it is full. */
  lemma OmittedComesLater(keys: set<Key>, limit: int, k: Key)
    requires KeyedById(keys) && k in keys && k.1 !in FirstIds(keys, limit)
    ensures |FirstIds(keys, limit)| == Max(0, limit)
    ensures forall x :: x in keys && x.1 in FirstIds(keys, limit) ==> KeyBefore(x, k)
  {
    var all, ids := OrderBy(keys, KeyBefore), FirstIds(keys, limit);
    var m := OmittedPosition(keys, limit, k);
    KeysOrder();
    OrderByLists(keys, KeyBefore);
    forall x | x in keys && x.1 in ids ensures KeyBefore(x, k) {
      var n :| 0 <= n < |ids| && ids[n] == x.1;
      assert all[n] in all && all[n].1 == x.1;
    }
  }

  // ----- the bulk lease without interference -----

  /** Records sit under their own ids. */
  ghost predicate Keyed(s: Store) { forall id :: id in s.jobs ==> s.jobs[id].id == id }

  function KeepUnspent(s: Store, scan: seq<JobId>): seq<JobId> {
    if scan == [] then []
    else
      var n := |scan| - 1;
      var kept := KeepUnspent(s, scan[..n]);
      if scan[n] in s.jobs && !Spent(s.jobs[scan[n]]) then kept + [scan[n]] else kept
  }

  /** Every scanned job is leased, or dies when its attempts are used up; the others are as they were. */
  ghost predicate LeasesScanned(
    s: Store, t: Store, scan: seq<JobId>, lease: LeaseId, now: Time, expires: Time)
  {
    && t.jobs.Keys == s.jobs.Keys
    && (forall id :: id in s.jobs && id !in scan ==> t.jobs[id] == s.jobs[id])
    && (forall id :: id in s.jobs && id in scan && Spent(s.jobs[id]) ==> t.jobs[id] == Exhaust(s.jobs[id], now))
    && (forall id :: id in s.jobs && id in scan && !Spent(s.jobs[id]) ==>
          t.jobs[id] == Grant(s.jobs[id], lease, now, expires))
  }

  lemma {:induction false} LeaseDistinctDue(
    s: Store, scan: seq<JobId>, lease: LeaseId, now: Time, expires: Time)
    requires Keyed(s) && Distinct(scan)
    requires forall id :: id in scan ==> id in s.jobs && Leaseable(s.jobs[id], now)
    ensures LeasedIds(s, scan, lease, now, expires) == KeepUnspent(s, scan)
    ensures LeasesScanned(s, LeaseScan(s, scan, lease, now, expires), scan, lease, now, expires)
  {
    if scan != [] {
      var n := |scan| - 1;
      assert scan == scan[..n] + [scan[n]];
      assert scan[n] !in scan[..n];
      LeaseDistinctDue(s, scan[..n], lease, now, expires);
    }
  }

  /**
   * A bulk lease with no interference returns exactly the first `limit` due jobs in
   * (available_at, job_id) order minus the exhausted ones, which become dead; nothing else changes.
   */
  lemma BulkLeaseTakesFirstDue(
    s: Store, filter: Option<ZoneId>, limit: int, lease: LeaseId, leaseMs: int, now: Time)
    requires Keyed(s) && leaseMs >= 1
    ensures var scan := FirstIds(Due(s, filter, now), limit);
      && LeasedIds(Issue(s, lease), scan, lease, now, now + leaseMs) == KeepUnspent(s, scan)
      && LeasesScanned(s, Apply(s, LeaseMany(scan, lease, leaseMs, now)), scan, lease, now, now + leaseMs)
  {
    DueIsScannedOnce(s, filter, limit, now);
    LeaseDistinctDueCall(s, FirstIds(Due(s, filter, now), limit), lease, leaseMs, now);
  }

  lemma LeaseDistinctDueCall(s: Store, scan: seq<JobId>, lease: LeaseId, leaseMs: int, now: Time)
    requires Keyed(s) && leaseMs >= 1 && Distinct(scan)
    requires forall id :: id in scan ==> id in s.jobs && Leaseable(s.jobs[id], now)
    ensures LeasedIds(Issue(s, lease), scan, lease, now, now + leaseMs) == KeepUnspent(s, scan)
    ensures LeasesScanned(s, Apply(s, LeaseMany(scan, lease, leaseMs, now)), scan, lease, now, now + leaseMs)
  {
    IssuedDistinctDue(s, scan, lease, now, now + leaseMs);
    LeaseManyScans(s, scan, lease, leaseMs, now);
  }

  lemma LeaseManyScans(s: Store, scan: seq<JobId>, lease: LeaseId, leaseMs: int, now: Time)
    requires leaseMs >= 1
    ensures Apply(s, LeaseMany(scan, lease, leaseMs, now))
      == LeaseScan(Issue(s, lease), scan, lease, now, now + leaseMs)
  {
  }

  lemma IssuedDistinctDue(s: Store, scan: seq<JobId>, lease: LeaseId, now: Time, expires: Time)
    requires Keyed(s) && Distinct(scan)
    requires forall id :: id in scan ==> id in s.jobs && Leaseable(s.jobs[id], now)
    ensures LeasedIds(Issue(s, lease), scan, lease, now, expires) == KeepUnspent(s, scan)
    ensures LeasesScanned(s, LeaseScan(Issue(s, lease), scan, lease, now, expires), scan, lease, now, expires)
  {
    var issued := Issue(s, lease);
    LeaseDistinctDue(issued, scan, lease, now, expires);
    SameUnspent(s, issued, scan);
    IssuingScansTheSame(s, LeaseScan(issued, scan, lease, now, expires), scan, lease, now, expires);
  }

  /** Issuing a lease id changes no job. */
  lemma IssuingScansTheSame(s: Store, t: Store, scan: seq<JobId>, lease: LeaseId, now: Time, expires: Time)
    requires LeasesScanned(Issue(s, lease), t, scan, lease, now, expires)
    ensures LeasesScanned(s, t, scan, lease, now, expires)
  {
    assert Issue(s, lease).jobs == s.jobs;
  }

  lemma DueIsScannedOnce(s: Store, filter: Option<ZoneId>, limit: int, now: Time)
    ensures Distinct(FirstIds(Due(s, filter, now), limit))
    ensures forall id :: id in FirstIds(Due(s, filter, now), limit) ==> id in s.jobs && Leaseable(s.jobs[id], now)
  {
    var keys := Due(s, filter, now);
    FirstIdsFacts(keys, limit);
    forall id | id in FirstIds(keys, limit) ensures id in s.jobs && Leaseable(s.jobs[id], now) {
      var k :| k in keys && k.1 == id;
    }
  }

  lemma {:induction false} SameUnspent(s: Store, t: Store, scan: seq<JobId>)
    requires s.jobs == t.jobs
    ensures KeepUnspent(s, scan) == KeepUnspent(t, scan)
  {
    if scan != [] {
      SameUnspent(s, t, scan[..|scan| - 1]);
    }
  }

  // ----- the sweep -----

  ghost function MovedToPending(s: Store, t: Store): set<JobId> {
    set id | id in s.jobs && id in t.jobs && t.jobs[id].state.Pending? && t.jobs[id] != s.jobs[id]
  }

  ghost function MovedToDead(s: Store, t: Store): set<JobId> {
    set id | id in s.jobs && id in t.jobs && t.jobs[id].state.Dead? && t.jobs[id] != s.jobs[id]
  }

  /** What a sweep has done to one job so far. */
  ghost predicate SweptOrSame(s: Store, t: Store, id: JobId, now: Time) {
    && id in s.jobs && id in t.jobs
    && (t.jobs[id] == s.jobs[id]
        || (Reclaimable(s.jobs[id], now)
            && t.jobs[id] == if Spent(s.jobs[id]) then Exhaust(s.jobs[id], now) else Reclaim(s.jobs[id], now)))
  }

  ghost predicate Swept(s: Store, scan: seq<JobId>, limit: int, now: Time, w: Sweep) {
    && w.store.jobs.Keys == s.jobs.Keys
    && (forall id {:trigger SweptOrSame(s, w.store, id, now)} :: id in s.jobs ==> SweptOrSame(s, w.store, id, now))
    && |MovedToPending(s, w.store)| == w.reclaimed
    && |MovedToDead(s, w.store)| == w.dead
    && w.reclaimed + w.dead <= Max(0, limit)
    && (w.reclaimed + w.dead < limit ==>
          forall id :: id in scan && id in s.jobs ==> !Reclaimable(w.store.jobs[id], now))
  }

  /** A job that a sweep moved is not reclaimable any more. */
  lemma MovedIsSettled(j: Job, now: Time)
    requires Reclaimable(j, now)
    ensures !Reclaimable(if Spent(j) then Exhaust(j, now) else Reclaim(j, now), now)
    ensures (if Spent(j) then Exhaust(j, now) else Reclaim(j, now)) != j
  {
  }

  /** The sweep moves this job now. */
  predicate Moves(w: Sweep, id: JobId, limit: int, now: Time) {
    w.reclaimed + w.dead < limit && id in w.store.jobs && Reclaimable(w.store.jobs[id], now)
  }

  /** A job the sweep moves was not moved before. */
  lemma MovedOnce(s: Store, scan: seq<JobId>, id: JobId, limit: int, now: Time, w: Sweep)
    requires Keyed(s) && Swept(s, scan, limit, now, w) && Moves(w, id, limit, now)
    ensures id in s.jobs && w.store.jobs[id] == s.jobs[id] && s.jobs[id].id == id
  {
    assert SweptOrSame(s, w.store, id, now);
    if w.store.jobs[id] != s.jobs[id] {
      MovedIsSettled(s.jobs[id], now);
    }
  }

  lemma MoveIsSwept(s: Store, scan: seq<JobId>, id: JobId, limit: int, now: Time, w: Sweep, x: JobId)
    requires Keyed(s) && Swept(s, scan, limit, now, w) && Moves(w, id, limit, now) && x in s.jobs
    ensures SweptOrSame(s, SweepOne(w, id, limit, now).store, x, now)
  {
    MovedOnce(s, scan, id, limit, now, w);
    assert SweptOrSame(s, w.store, x, now);
  }

  lemma MoveIsCounted(s: Store, scan: seq<JobId>, id: JobId, limit: int, now: Time, w: Sweep)
    requires Keyed(s) && Swept(s, scan, limit, now, w) && Moves(w, id, limit, now)
    ensures var v := SweepOne(w, id, limit, now);
      && |MovedToPending(s, v.store)| == v.reclaimed && |MovedToDead(s, v.store)| == v.dead
  {
    var v, j := SweepOne(w, id, limit, now), s.jobs[id];
    MovedOnce(s, scan, id, limit, now, w);
    MovedIsSettled(j, now);
    if Spent(j) {
      assert MovedToDead(s, v.store) == MovedToDead(s, w.store) + {id};
      assert MovedToPending(s, v.store) == MovedToPending(s, w.store);
    } else {
      assert MovedToPending(s, v.store) == MovedToPending(s, w.store) + {id};
      assert MovedToDead(s, v.store) == MovedToDead(s, w.store);
    }
  }

  lemma MoveSettles(s: Store, scan: seq<JobId>, id: JobId, limit: int, now: Time, w: Sweep, x: JobId)
    requires Keyed(s) && Swept(s, scan, limit, now, w) && Moves(w, id, limit, now)
    requires x in s.jobs && (x in scan || x == id)
    ensures !Reclaimable(SweepOne(w, id, limit, now).store.jobs[x], now)
  {
    MovedOnce(s, scan, id, limit, now, w);
    MovedIsSettled(s.jobs[id], now);
  }

  lemma SweepStep(s: Store, scan: seq<JobId>, id: JobId, limit: int, now: Time, w: Sweep)
    requires Keyed(s) && Swept(s, scan, limit, now, w)
    ensures Swept(s, scan + [id], limit, now, SweepOne(w, id, limit, now))
  {
    var v := SweepOne(w, id, limit, now);
    if Moves(w, id, limit, now) {
      MovedOnce(s, scan, id, limit, now, w);
      assert v.store.jobs.Keys == s.jobs.Keys;
      forall x | x in s.jobs ensures SweptOrSame(s, v.store, x, now) {
        MoveIsSwept(s, scan, id, limit, now, w, x);
      }
      MoveIsCounted(s, scan, id, limit, now, w);
      forall x | x in scan + [id] && x in s.jobs ensures !Reclaimable(v.store.jobs[x], now) {
        MoveSettles(s, scan, id, limit, now, w, x);
      }
    }
  }

  /**
   * A sweep changes at most `limit` jobs, its two counters are the numbers of rows it moved to pending
   * and to dead, every change is the one its job called for, and unless the limit stopped it no scanned
   * job is left expired or exhausted. This holds for any starting store and any scan, however stale.
   */
  lemma {:induction false} SweepCounts(s: Store, scan: seq<JobId>, limit: int, now: Time)
    requires Keyed(s)
    ensures Swept(s, scan, limit, now, SweepScan(s, scan, limit, now))
  {
    if scan == [] {
      assert MovedToPending(s, s) == {} && MovedToDead(s, s) == {};
      forall x | x in s.jobs ensures SweptOrSame(s, s, x, now) {
      }
    } else {
      var n := |scan| - 1;
      SweepCounts(s, scan[..n], limit, now);
      SweepStep(s, scan[..n], scan[n], limit, now, SweepScan(s, scan[..n], limit, now));
      assert scan == scan[..n] + [scan[n]];
    }
  }

  lemma {:induction false} SweepOnlyTouchesScanned(s: Store, scan: seq<JobId>, limit: int, now: Time, id: JobId)
    requires Keyed(s) && id !in scan && id in s.jobs
    ensures id in SweepScan(s, scan, limit, now).store.jobs
    ensures SweepScan(s, scan, limit, now).store.jobs[id] == s.jobs[id]
  {
    if scan != [] {
      var n := |scan| - 1;
      assert scan == scan[..n] + [scan[n]];
      SweepOnlyTouchesScanned(s, scan[..n], limit, now, id);
      SweepCounts(s, scan[..n], limit, now);
      var w := SweepScan(s, scan[..n], limit, now);
      if scan[n] in s.jobs {
        assert SweptOrSame(s, w.store, scan[n], now);
      }
    }
  }

  /**
   * When the limit covers all matching rows, a sweep with no interference leaves no expired lease and no
   * exhausted pending job, touches no other zone, and doing it again at the same time does nothing.
   */
  lemma SweepClears(s: Store, filter: Option<ZoneId>, limit: int, now: Time)
    requires Keyed(s) && limit >= 1 && limit >= |Overdue(s, filter, now)|
    ensures var t := Apply(s, SweepExpired(FirstIds(Overdue(s, filter, now), limit), limit, now));
      && Overdue(t, filter, now) == {}
      && t.jobs.Keys == s.jobs.Keys
      && (forall id :: id in s.jobs && !InZone(s.jobs[id].zone, filter) ==> t.jobs[id] == s.jobs[id])
      && Apply(t, SweepExpired(FirstIds(Overdue(t, filter, now), limit), limit, now)) == t
  {
    var scan := FirstIds(Overdue(s, filter, now), limit);
    var w := SweepScan(s, scan, limit, now);
    SweepCounts(s, scan, limit, now);
    forall id | id in s.jobs
      ensures InZone(s.jobs[id].zone, filter) ==> !Reclaimable(w.store.jobs[id], now)
      ensures w.store.jobs[id].zone == s.jobs[id].zone
      ensures !InZone(s.jobs[id].zone, filter) ==> w.store.jobs[id] == s.jobs[id]
    {
      SweepSettles(s, filter, limit, now, id);
    }
    assert Overdue(w.store, filter, now) == {};
    NothingToScan(limit);
  }

  /** What a sweep with room for all leaves of one job. */
  lemma SweepSettles(s: Store, filter: Option<ZoneId>, limit: int, now: Time, id: JobId)
    requires Keyed(s) && limit >= 1 && limit >= |Overdue(s, filter, now)| && id in s.jobs
    ensures var t := SweepScan(s, FirstIds(Overdue(s, filter, now), limit), limit, now).store;
      && id in t.jobs && t.jobs[id].zone == s.jobs[id].zone
      && (InZone(s.jobs[id].zone, filter) ==> !Reclaimable(t.jobs[id], now))
      && (!InZone(s.jobs[id].zone, filter) ==> t.jobs[id] == s.jobs[id])
  {
    var scan := FirstIds(Overdue(s, filter, now), limit);
    var w := SweepScan(s, scan, limit, now);
    OverdueIsScanned(s, filter, limit, now);
    SweepCounts(s, scan, limit, now);
    MovesAreBounded(s, scan, limit, now);
    assert SweptOrSame(s, w.store, id, now);
    if id !in scan {
      SweepOnlyTouchesScanned(s, scan, limit, now, id);
    }
  }

  lemma OverdueIsScanned(s: Store, filter: Option<ZoneId>, limit: int, now: Time)
    requires limit >= 1 && limit >= |Overdue(s, filter, now)|
    ensures |FirstIds(Overdue(s, filter, now), limit)| <= limit
    ensures forall id :: id in FirstIds(Overdue(s, filter, now), limit) <==>
      id in s.jobs && InZone(s.jobs[id].zone, filter) && Reclaimable(s.jobs[id], now)
  {
    var keys := Overdue(s, filter, now);
    FirstIdsFacts(keys, limit);
    EverythingScanned(keys, limit);
    forall id | id in FirstIds(keys, limit)
      ensures id in s.jobs && InZone(s.jobs[id].zone, filter) && Reclaimable(s.jobs[id], now)
    {
      var k :| k in keys && k.1 == id;
    }
    forall id | id in s.jobs && InZone(s.jobs[id].zone, filter) && Reclaimable(s.jobs[id], now)
      ensures id in FirstIds(keys, limit)
    {
      assert (s.jobs[id].updatedAt, id) in keys;
    }
  }

  lemma NothingToScan(limit: int)
    ensures FirstIds({}, limit) == []
  {
    FirstIdsFacts({}, limit);
  }

  lemma EverythingScanned(keys: set<Key>, limit: int)
    requires KeyedById(keys) && limit >= |keys|
    ensures forall k :: k in keys ==> k.1 in FirstIds(keys, limit)
  {
    FirstIdsFacts(keys, limit);
    KeysOrder();
    OrderByLists(keys, KeyBefore);
    var all := OrderBy(keys, KeyBefore);
    forall k | k in keys ensures k.1 in FirstIds(keys, limit) {
      var m :| 0 <= m < |all| && all[m] == k;
      assert FirstIds(keys, limit)[m] == k.1;
    }
  }

  /** With every reclaimable job scanned once and room for all, the limit never stops the sweep. */
  lemma {:induction false} MovesAreBounded(s: Store, scan: seq<JobId>, limit: int, now: Time)
    requires Keyed(s) && |scan| <= limit
    ensures forall id :: id in scan && id in s.jobs ==>
      id in SweepScan(s, scan, limit, now).store.jobs
      && !Reclaimable(SweepScan(s, scan, limit, now).store.jobs[id], now)
    ensures SweepScan(s, scan, limit, now).reclaimed + SweepScan(s, scan, limit, now).dead <= |scan|
  {
    if scan != [] {
      var n := |scan| - 1;
      assert scan == scan[..n] + [scan[n]];
      MovesAreBounded(s, scan[..n], limit, now);
      SweepCounts(s, scan[..n], limit, now);
      SweepCounts(s, scan, limit, now);
      var w := SweepScan(s, scan[..n], limit, now);
      if scan[n] in s.jobs {
        assert SweptOrSame(s, w.store, scan[n], now);
        if Reclaimable(w.store.jobs[scan[n]], now) {
          MovedIsSettled(w.store.jobs[scan[n]], now);
        }
      }
    }
  }
}
