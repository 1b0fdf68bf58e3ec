/** What every reachable job store satisfies, over any interleaving of calls with stale scans. */
module JobHistory {
  import opened Wrappers
  import opened Ordering
  import opened Jobs

  function Grants(h: seq<Touch>): nat {
    if h == [] then 0 else Grants(h[..|h| - 1]) + (if h[|h| - 1].Granted? then 1 else 0)
  }

  /** The last lease of a history. */
  function LastGrant(h: seq<Touch>): (g: Option<Touch>)
    ensures g.Some? ==> g.value.Granted? && g.value in h
  {
    if h == [] then None
    else if h[|h| - 1].Granted? then Some(h[|h| - 1])
    else LastGrant(h[..|h| - 1])
  }

  /** Why a pending job is pending: new, failed by its holder, or reclaimed after its lease ran out. */
  predicate ReleasedBy(h: seq<Touch>, availableAt: Time) {
    || h == [Created]
    || (h != [] && LastGrant(h).Some? && (
          || h[|h| - 1] == Failed(LastGrant(h).value.lease)
          || (h[|h| - 1] == Expired(availableAt) && LastGrant(h).value.expires <= availableAt)))
  }

  /** How the record of a job agrees with its history. */
  predicate JobInv(j: Job, h: seq<Touch>) {
    && j.attempt == Grants(h)
    && (j.attempt == 0 || j.attempt <= j.maxAttempts)
    && (j.state.Leased? <==> j.leaseId.Some?)
    && (j.state.Leased? <==> j.leaseExpiresAt.Some?)
    && (j.state.Leased? <==> j.leasedAt.Some?)
    && (j.state.Leased? ==>
          h != [] && h[|h| - 1].Granted?
          && j.leaseId == Some(h[|h| - 1].lease) && j.leaseExpiresAt == Some(h[|h| - 1].expires))
    && (j.state.Pending? ==> ReleasedBy(h, j.availableAt))
    && (j.state.Dead? ==> Spent(j))
  }

  /** The lease granted at `k` waits for the one before it to expire, or to be failed by its holder. */
  predicate Handover(h: seq<Touch>, k: nat)
    requires 0 < k < |h|
  {
    h[k].Granted? && LastGrant(h[..k]).Some? ==>
      || h[k].at >= LastGrant(h[..k]).value.expires
      || h[k - 1] == Failed(LastGrant(h[..k]).value.lease)
  }

  predicate Orderly(h: seq<Touch>) { forall k :: 0 < k < |h| ==> Handover(h, k) }

  predicate GrantsLease(h: seq<Touch>, lease: LeaseId) {
    exists k :: 0 <= k < |h| && h[k].Granted? && h[k].lease == lease
  }

  /** No lease id is granted twice in one history, and all were issued. */
  predicate LeasesDistinct(h: seq<Touch>, issued: set<LeaseId>) {
    && (forall k :: 0 <= k < |h| && h[k].Granted? ==> h[k].lease in issued)
    && (forall a, b :: 0 <= a < b < |h| && h[a].Granted? && h[b].Granted? ==> h[a].lease != h[b].lease)
  }

  /** A completion is made by the holder of the last lease, and nothing follows it. */
  predicate CompletionIsFinal(j: Job, h: seq<Touch>) {
    forall k :: 0 <= k < |h| && h[k].Completed? ==> k == |h| - 1 && j.state.Succeeded?
  }

  predicate Sound(s: Store, id: JobId) {
    && id in s.jobs && id in s.history && s.jobs[id].id == id
    && Writable(s.jobs[id])
    && JobInv(s.jobs[id], s.history[id])
    && Orderly(s.history[id])
    && LeasesDistinct(s.history[id], s.issued)
    && CompletionIsFinal(s.jobs[id], s.history[id])
  }

  ghost predicate StoreInv(s: Store) {
    && s.history.Keys == s.jobs.Keys
    && forall id {:trigger Sound(s, id)} :: id in s.jobs ==> Sound(s, id)
  }

  // ----- one step keeps the invariant -----

  lemma AppendTouch(h: seq<Touch>, t: Touch)
    ensures Grants(h + [t]) == Grants(h) + (if t.Granted? then 1 else 0)
    ensures LastGrant(h + [t]) == if t.Granted? then Some(t) else LastGrant(h)
    ensures Orderly(h) && (h != [] ==> Handover(h + [t], |h|)) ==> Orderly(h + [t])
  {
    assert (h + [t])[..|h|] == h;
    forall k | 0 < k < |h| ensures Handover(h + [t], k) <==> Handover(h, k) {
      SamePrefix(h, t, k);
    }
  }

  lemma SamePrefix(h: seq<Touch>, t: Touch, k: nat)
    requires 0 < k < |h|
    ensures (h + [t])[..k] == h[..k] && (h + [t])[k] == h[k] && (h + [t])[k - 1] == h[k - 1]
  {
  }

  lemma PutKeeps(s: Store, j: Job, touch: Touch)
    requires StoreInv(s) && Sound(Put(s, j, touch), j.id)
    ensures StoreInv(Put(s, j, touch))
  {
    var t := Put(s, j, touch);
    forall id | id in t.jobs ensures Sound(t, id) {
      if id != j.id {
        assert Sound(s, id);
      }
    }
  }

  lemma IssueKeeps(s: Store, lease: LeaseId)
    requires StoreInv(s)
    ensures StoreInv(Issue(s, lease))
  {
    forall id | id in s.jobs ensures Sound(Issue(s, lease), id) {
      assert Sound(s, id);
    }
  }

  lemma EnqueueKeeps(s: Store, spec: Spec, now: Time)
    requires StoreInv(s)
    ensures StoreInv(EnqueueIn(s, spec, now))
  {
    var j := NewJob(spec, now);
    if spec.id !in s.jobs && Writable(j) {
      AppendTouch([], Created);
      assert [] + [Created] == [Created];
      PutKeeps(s, j, Created);
    }
  }

  /** A lease is granted only after the previous one ran out, or was failed by its holder. */
  lemma LeaseableHandsOver(j: Job, h: seq<Touch>, lease: LeaseId, now: Time, expires: Time)
    requires JobInv(j, h) && Leaseable(j, now) && h != []
    ensures Handover(h + [Granted(lease, now, expires)], |h|)
  {
    var g := h + [Granted(lease, now, expires)];
    assert g[..|h|] == h && g[|h| - 1] == h[|h| - 1];
    if h == [Created] {
      AppendTouch([], Created);
      assert [] + [Created] == h;
    }
  }

  lemma GrantKeeps(s: Store, id: JobId, lease: LeaseId, now: Time, expires: Time)
    requires StoreInv(s) && Grantable(s, id, now)
    requires lease in s.issued && !GrantsLease(s.history[id], lease)
    ensures StoreInv(LeaseOne(s, id, lease, now, expires))
  {
    assert Sound(s, id);
    var j, h := s.jobs[id], s.history[id];
    var touch := Granted(lease, now, expires);
    LeaseableHandsOver(j, h, lease, now, expires);
    AppendTouch(h, touch);
    PutKeeps(s, Grant(j, lease, now, expires), touch);
  }

  lemma ExhaustKeeps(s: Store, id: JobId, now: Time)
    requires StoreInv(s) && id in s.jobs && Spent(s.jobs[id]) && !Terminal(s.jobs[id].state)
    ensures StoreInv(Put(s, Exhaust(s.jobs[id], now), Exhausted(now)))
  {
    assert Sound(s, id);
    AppendTouch(s.history[id], Exhausted(now));
    PutKeeps(s, Exhaust(s.jobs[id], now), Exhausted(now));
  }

  /** The lease id of this call is used at most once per job: a job leased by it is not leaseable again. */
  ghost predicate Unspent(s: Store, lease: LeaseId, now: Time) {
    forall id {:trigger s.history[id]} :: id in s.jobs && id in s.history && GrantsLease(s.history[id], lease) ==>
      !Leaseable(s.jobs[id], now)
  }

  lemma LeaseOneKeeps(s: Store, id: JobId, lease: LeaseId, now: Time, expires: Time)
    requires StoreInv(s) && lease in s.issued && Unspent(s, lease, now) && now < expires
    ensures StoreInv(LeaseOne(s, id, lease, now, expires))
    ensures Unspent(LeaseOne(s, id, lease, now, expires), lease, now)
    ensures LeaseOne(s, id, lease, now, expires).issued == s.issued
  {
    if id in s.jobs && Leaseable(s.jobs[id], now) {
      assert Sound(s, id);
      if Spent(s.jobs[id]) {
        ExhaustKeeps(s, id, now);
      } else {
        GrantKeeps(s, id, lease, now, expires);
      }
    }
  }

  lemma {:induction false} LeaseScanKeeps(s: Store, scan: seq<JobId>, lease: LeaseId, now: Time, expires: Time)
    requires StoreInv(s) && lease in s.issued && Unspent(s, lease, now) && now < expires
    ensures StoreInv(LeaseScan(s, scan, lease, now, expires))
    ensures Unspent(LeaseScan(s, scan, lease, now, expires), lease, now)
    ensures LeaseScan(s, scan, lease, now, expires).issued == s.issued
  {
    if scan != [] {
      var n := |scan| - 1;
      LeaseScanKeeps(s, scan[..n], lease, now, expires);
      LeaseOneKeeps(LeaseScan(s, scan[..n], lease, now, expires), scan[n], lease, now, expires);
    }
  }

  lemma FreshIsUnspent(s: Store, lease: LeaseId, now: Time)
    requires StoreInv(s) && lease !in s.issued
    ensures Unspent(Issue(s, lease), lease, now)
  {
    forall id | id in s.jobs ensures !GrantsLease(s.history[id], lease) {
      assert Sound(s, id);
    }
  }

  lemma ReclaimOneKeeps(s: Store, id: JobId, now: Time)
    requires StoreInv(s)
    ensures StoreInv(ReclaimOne(s, id, now))
  {
    if id in s.jobs && Reclaimable(s.jobs[id], now) {
      assert Sound(s, id);
      if Spent(s.jobs[id]) {
        ExhaustKeeps(s, id, now);
      } else {
        AppendTouch(s.history[id], Expired(now));
        PutKeeps(s, Reclaim(s.jobs[id], now), Expired(now));
      }
    }
  }

  lemma {:induction false} SweepScanKeeps(s: Store, scan: seq<JobId>, limit: int, now: Time)
    requires StoreInv(s)
    ensures StoreInv(SweepScan(s, scan, limit, now).store)
  {
    if scan != [] {
      SweepScanKeeps(s, scan[..|scan| - 1], limit, now);
      ReclaimOneKeeps(SweepScan(s, scan[..|scan| - 1], limit, now).store, scan[|scan| - 1], now);
    }
  }

  lemma CompleteKeeps(s: Store, id: JobId, lease: LeaseId, output: Option<int>, effect: Option<Effect>, now: Time)
    requires StoreInv(s)
    ensures StoreInv(CompleteIn(s, id, lease, output, effect, now))
  {
    if HeldIn(s, id, lease) {
      assert Sound(s, id);
      AppendTouch(s.history[id], Completed(lease));
      PutKeeps(s, Complete(s.jobs[id], output, effect, now), Completed(lease));
    }
  }

  lemma FailKeeps(s: Store, id: JobId, lease: LeaseId, code: Failure, block: bool, seed: nat, now: Time)
    requires StoreInv(s)
    ensures StoreInv(FailIn(s, id, lease, code, block, seed, now))
  {
    if HeldIn(s, id, lease) {
      assert Sound(s, id);
      AppendTouch(s.history[id], Failed(lease));
      PutKeeps(s, Fail(s.jobs[id], code, block, seed, now), Failed(lease));
    }
  }

  /** Every operation keeps the invariant. */
  lemma ApplyKeeps(s: Store, op: Op)
    requires StoreInv(s) && Fresh(s, op)
    ensures StoreInv(Apply(s, op))
  {
    match op
    case Enqueue(spec, now) => EnqueueKeeps(s, spec, now);
    case LeaseById(id, lease, ms, now) =>
      if ms >= 1 {
        IssueKeeps(s, lease);
        FreshIsUnspent(s, lease, now);
        LeaseOneKeeps(Issue(s, lease), id, lease, now, now + ms);
      }
    case LeaseMany(scan, lease, ms, now) =>
      if ms >= 1 {
        IssueKeeps(s, lease);
        FreshIsUnspent(s, lease, now);
        LeaseScanKeeps(Issue(s, lease), scan, lease, now, now + ms);
      }
    case SweepExpired(scan, limit, now) => SweepScanKeeps(s, scan, limit, now);
    case CompleteJob(id, lease, output, effect, now) => CompleteKeeps(s, id, lease, output, effect, now);
    case FailJob(id, lease, code, block, seed, now) => FailKeeps(s, id, lease, code, block, seed, now);
  }

  /** The invariant holds after every run of calls from a store that satisfies it. */
  lemma {:induction false} RunKeeps(s: Store, ops: seq<Op>)
    requires StoreInv(s) && FreshRun(s, ops)
    ensures StoreInv(Run(s, ops))
  {
    if ops != [] {
      RunKeeps(s, ops[..|ops| - 1]);
      ApplyKeeps(Run(s, ops[..|ops| - 1]), ops[|ops| - 1]);
    }
  }

  /** The invariant holds of every reachable store. */
  lemma ReachableStoresAreSound(ops: seq<Op>)
    requires FreshRun(EMPTY, ops)
    ensures StoreInv(Run(EMPTY, ops))
  {
    RunKeeps(EMPTY, ops);
  }

  // ----- what it means for callers -----

  /**
   * In every reachable store the attempt counter is the number of leases ever granted, it stays within
   * `max_attempts` (so a dead job has used them all), and lease fields are set exactly while leased.
   */
  lemma AttemptsCountLeases(ops: seq<Op>, id: JobId)
    requires FreshRun(EMPTY, ops) && id in Run(EMPTY, ops).jobs
    ensures var s := Run(EMPTY, ops);
      var j := s.jobs[id];
      && id in s.history && j.attempt == Grants(s.history[id])
      && j.attempt <= Max(0, j.maxAttempts)
      && (j.state.Dead? ==> j.attempt == Max(0, j.maxAttempts))
      && (j.state.Leased? <==> j.leaseId.Some?)
      && (j.state.Leased? <==> j.leaseExpiresAt.Some?)
      && (j.state.Leased? <==> j.leasedAt.Some?)
  {
    ReachableStoresAreSound(ops);
    assert Sound(Run(EMPTY, ops), id);
  }

  lemma {:induction false} LastGrantIs(h: seq<Touch>, a: nat)
    requires a < |h| && h[a].Granted?
    requires forall k :: a < k < |h| ==> !h[k].Granted?
    ensures LastGrant(h) == Some(h[a])
  {
    if a < |h| - 1 {
      LastGrantIs(h[..|h| - 1], a);
    }
  }

  /**
   * However scans, leases and sweeps of several processes interleave, the next lease on a job is granted
   * only at a time at or after the expiry of the one before it, or after its holder failed the job.
   */
  lemma SecondLeaseWaits(ops: seq<Op>, id: JobId, a: nat, b: nat)
    requires FreshRun(EMPTY, ops) && id in Run(EMPTY, ops).history
    requires a < b < |Run(EMPTY, ops).history[id]|
    requires var h := Run(EMPTY, ops).history[id];
      h[a].Granted? && h[b].Granted? && forall k :: a < k < b ==> !h[k].Granted?
    ensures var h := Run(EMPTY, ops).history[id];
      h[b].at >= h[a].expires || exists k :: a < k < b && h[k] == Failed(h[a].lease)
  {
    var s := Run(EMPTY, ops);
    var h := s.history[id];
    ReachableStoresAreSound(ops);
    assert Sound(s, id);
    LastGrantIs(h[..b], a);
    assert Handover(h, b);
  }

  // ----- terminal states -----

  predicate SameJob(s: Store, t: Store, id: JobId) {
    && id in s.jobs && id in s.history && id in t.jobs && id in t.history
    && t.jobs[id] == s.jobs[id] && t.history[id] == s.history[id]
  }

  lemma {:induction false} LeaseScanSparesTerminal(
    s: Store, scan: seq<JobId>, lease: LeaseId, now: Time, expires: Time, id: JobId)
    requires StoreInv(s) && lease in s.issued && Unspent(s, lease, now) && now < expires
    requires id in s.jobs && Terminal(s.jobs[id].state)
    ensures SameJob(s, LeaseScan(s, scan, lease, now, expires), id)
  {
    if scan == [] {
      assert Sound(s, id);
    } else {
      var n := |scan| - 1;
      LeaseScanSparesTerminal(s, scan[..n], lease, now, expires, id);
      LeaseScanKeeps(s, scan[..n], lease, now, expires);
      var t := LeaseScan(s, scan[..n], lease, now, expires);
      if scan[n] in t.jobs {
        assert Sound(t, scan[n]);
      }
    }
  }

  lemma {:induction false} SweepScanSparesTerminal(s: Store, scan: seq<JobId>, limit: int, now: Time, id: JobId)
    requires StoreInv(s) && id in s.jobs && Terminal(s.jobs[id].state)
    ensures SameJob(s, SweepScan(s, scan, limit, now).store, id)
  {
    if scan == [] {
      assert Sound(s, id);
    } else {
      var n := |scan| - 1;
      SweepScanSparesTerminal(s, scan[..n], limit, now, id);
      SweepScanKeeps(s, scan[..n], limit, now);
      var t := SweepScan(s, scan[..n], limit, now).store;
      if scan[n] in t.jobs {
        assert Sound(t, scan[n]);
      }
    }
  }

  /** Succeeded, blocked and dead are absorbing: no call changes anything about such a job. */
  lemma TerminalIsAbsorbing(s: Store, op: Op, id: JobId)
    requires StoreInv(s) && Fresh(s, op)
    requires id in s.jobs && Terminal(s.jobs[id].state)
    ensures SameJob(s, Apply(s, op), id)
  {
    assert Sound(s, id);
    match op
    case Enqueue(spec, now) =>
    case LeaseById(other, lease, ms, now) =>
      if other in s.jobs {
        assert Sound(s, other);
      }
    case LeaseMany(scan, lease, ms, now) =>
      if ms >= 1 {
        IssueKeeps(s, lease);
        FreshIsUnspent(s, lease, now);
        LeaseScanSparesTerminal(Issue(s, lease), scan, lease, now, now + ms, id);
      }
    case SweepExpired(scan, limit, now) => SweepScanSparesTerminal(s, scan, limit, now, id);
    case CompleteJob(other, lease, output, effect, now) =>
      if other in s.jobs {
        assert Sound(s, other);
      }
    case FailJob(other, lease, code, block, seed, now) =>
      if other in s.jobs {
        assert Sound(s, other);
      }
  }

  lemma {:induction false} TerminalForever(s: Store, ops: seq<Op>, id: JobId)
    requires StoreInv(s) && FreshRun(s, ops)
    requires id in s.jobs && Terminal(s.jobs[id].state)
    ensures SameJob(s, Run(s, ops), id)
  {
    if ops == [] {
      assert Sound(s, id);
    } else {
      TerminalForever(s, ops[..|ops| - 1], id);
      RunKeeps(s, ops[..|ops| - 1]);
      TerminalIsAbsorbing(Run(s, ops[..|ops| - 1]), ops[|ops| - 1], id);
    }
  }

  /** Once anything has happened after a lease was granted, its holder can change nothing. */
  lemma SupersededLeaseChangesNothing(ops: seq<Op>, id: JobId, k: nat, op: Op)
    requires FreshRun(EMPTY, ops) && id in Run(EMPTY, ops).history
    requires k < |Run(EMPTY, ops).history[id]| - 1 && Run(EMPTY, ops).history[id][k].Granted?
    requires op.CompleteJob? || op.FailJob?
    requires op.id == id && op.lease == Run(EMPTY, ops).history[id][k].lease
    ensures Apply(Run(EMPTY, ops), op) == Run(EMPTY, ops)
  {
    ReachableStoresAreSound(ops);
    assert Sound(Run(EMPTY, ops), id);
  }

  /** How many completion calls for this job answered `true` during a run. */
  function TrueCompletions(s: Store, ops: seq<Op>, id: JobId): nat {
    if ops == [] then 0
    else
      var before := Run(s, ops[..|ops| - 1]);
      var op := ops[|ops| - 1];
      TrueCompletions(s, ops[..|ops| - 1], id)
      + (if op.CompleteJob? && op.id == id && HeldIn(before, id, op.lease) then 1 else 0)
  }

  /** At most one completion call per job ever answers `true`, and then the job has succeeded for good. */
  lemma {:induction false} CompletesAtMostOnce(ops: seq<Op>, id: JobId)
    requires FreshRun(EMPTY, ops)
    ensures TrueCompletions(EMPTY, ops, id) <= 1
    ensures TrueCompletions(EMPTY, ops, id) == 1 ==>
      id in Run(EMPTY, ops).jobs && Run(EMPTY, ops).jobs[id].state.Succeeded?
  {
    if ops != [] {
      var prior := ops[..|ops| - 1];
      CompletesAtMostOnce(prior, id);
      ReachableStoresAreSound(prior);
      if TrueCompletions(EMPTY, prior, id) == 1 {
        TerminalIsAbsorbing(Run(EMPTY, prior), ops[|ops| - 1], id);
      } else if id in Run(EMPTY, prior).jobs {
        assert Sound(Run(EMPTY, prior), id);
      }
    }
  }

  // ----- retry times -----

  lemma {:induction false} Pow2Bounds(n: nat)
    requires n <= 10
    ensures 1 <= Pow2(n) <= 1024
    ensures n > 0 ==> Pow2(n) == 2 * Pow2(n - 1)
    decreases 10 - n
  {
    assert Pow2(10) == 1024 by {
      assert Pow2(2) == 4 && Pow2(4) == 4 * Pow2(2) && Pow2(6) == 4 * Pow2(4) && Pow2(8) == 4 * Pow2(6);
    }
    if n < 10 {
      Pow2Bounds(n + 1);
    }
  }

  /**
   * A failed job waits at least a second; the wait doubles with every attempt until the eleventh, and
   * the one-hour cap of the formula is never reached: no wait is longer than 1024.999 seconds.
   */
  lemma BackoffDoubles(attempts: int, seed: nat)
    ensures 1000 <= Backoff(attempts, seed) <= 1024999
    ensures 1 <= attempts <= 10 ==>
      Backoff(attempts + 1, seed) - seed % 1000 == 2 * (Backoff(attempts, seed) - seed % 1000)
    ensures attempts >= 11 ==> Backoff(attempts + 1, seed) == Backoff(attempts, seed)
  {
    Pow2Bounds(Min(10, Max(0, attempts - 1)));
    Pow2Bounds(Min(10, Max(0, attempts)));
  }
}
