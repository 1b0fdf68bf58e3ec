/**
 * What each call writes into the records, field by field, and what that means for whole runs: where a job's
 * identity comes from, and what the record of a succeeded job holds.
 */
module JobOutcomes {
  import opened Wrappers
  import opened Ordering
  import opened Jobs
  import opened JobHistory
  import opened JobScans
  import JobRaces

  // ----- records, field by field -----

  /** What never changes about a job. */
  predicate SameIdentity(j: Job, k: Job) {
    && k.id == j.id && k.zone == j.zone && k.source == j.source && k.stage == j.stage && k.model == j.model
    && k.inputDigest == j.inputDigest && k.maxAttempts == j.maxAttempts && k.createdAt == j.createdAt
  }

  predicate SameResult(j: Job, k: Job) { k.outputDigest == j.outputDigest && k.effect == j.effect }

  predicate Unleased(k: Job) { k.leaseId.None? && k.leaseExpiresAt.None? && k.leasedAt.None? }

  /** The record a first enqueue stores: pending, with the defaults filled in. */
  predicate Born(k: Job, spec: Spec, now: Time) {
    && k.id == spec.id && k.zone == spec.zone && k.source == spec.source && k.stage == spec.stage
    && k.inputDigest == spec.inputDigest && k.createdAt == k.updatedAt == now
    && (if spec.model.Some? then k.model == spec.model.value else k.model == Fake)
    && k.maxAttempts == (if spec.maxAttempts.Some? then spec.maxAttempts.value else 8)
    && k.availableAt == (if spec.availableAt.Some? then spec.availableAt.value else now)
    && (if spec.effect.Some? then k.effect == spec.effect.value else k.effect == NoEffect)
    && k.state.Pending? && k.attempt == 0 && k.outputDigest.None? && Unleased(k)
    && k.finishedAt.None? && k.errorCode.None? && k.lastError.None?
  }

  /** Due at this time: available, and pending or under a lease that has run out. */
  predicate IsDue(j: Job, now: Time) {
    && j.availableAt <= now
    && (j.state.Pending? || (j.state.Leased? && j.leaseExpiresAt.Some? && j.leaseExpiresAt.value <= now))
  }

  predicate NoAttemptsLeft(j: Job) { j.attempt >= j.maxAttempts }

  /** Leased: one more attempt, and the last error forgotten. */
  predicate Taken(j: Job, k: Job, lease: LeaseId, now: Time, expires: Time) {
    && SameIdentity(j, k) && SameResult(j, k) && k.availableAt == j.availableAt && k.finishedAt == j.finishedAt
    && k.state.Leased? && k.attempt == j.attempt + 1
    && k.leaseId == Some(lease) && k.leaseExpiresAt == Some(expires) && k.leasedAt == Some(now)
    && k.updatedAt == now && k.errorCode.None? && k.lastError.None?
  }

  /** Dead for want of attempts; an error it already names stays. */
  predicate Died(j: Job, k: Job, now: Time) {
    && SameIdentity(j, k) && SameResult(j, k) && k.availableAt == j.availableAt && k.attempt == j.attempt
    && k.state.Dead? && Unleased(k) && k.finishedAt == Some(now) && k.updatedAt == now
    && k.errorCode == (if j.errorCode.Some? then j.errorCode else Some(MaxAttemptsExhausted))
    && k.lastError == (if j.lastError.Some? then j.lastError else Some(MaxAttemptsExhausted))
  }

  /** Taken from a holder whose lease ran out: pending and available at once. */
  predicate Freed(j: Job, k: Job, now: Time) {
    && SameIdentity(j, k) && SameResult(j, k) && k.attempt == j.attempt
    && k.state.Pending? && Unleased(k) && k.availableAt == k.updatedAt == now && k.finishedAt.None?
    && k.errorCode == (if j.errorCode.Some? then j.errorCode else Some(LeaseExpired))
    && k.lastError == (if j.lastError.Some? then j.lastError else Some(LeaseExpired))
  }

  /** Succeeded, with the output and effect given, or else those it had. */
  predicate Finished(j: Job, k: Job, output: Option<int>, effect: Option<Effect>, now: Time) {
    && SameIdentity(j, k) && k.availableAt == j.availableAt && k.attempt == j.attempt
    && k.state.Succeeded? && Unleased(k) && k.finishedAt == Some(now) && k.updatedAt == now
    && k.outputDigest == (if output.Some? then output else j.outputDigest)
    && k.effect == (if effect.Some? then effect.value else j.effect)
    && k.errorCode.None? && k.lastError.None?
  }

  /** Failed with this code: blocked when asked to, dead after the last attempt, else to be tried again later. */
  predicate GaveUp(j: Job, k: Job, code: Failure, block: bool, seed: nat, now: Time) {
    && SameIdentity(j, k) && SameResult(j, k) && k.attempt == j.attempt && Unleased(k) && k.updatedAt == now
    && k.errorCode == Some(code) && k.lastError == Some(code)
    && (if block || NoAttemptsLeft(j) then
          && k.finishedAt == Some(now) && k.availableAt == j.availableAt
          && (if block then k.state.Blocked? else k.state.Dead?)
        else
          && k.state.Pending? && k.finishedAt.None?
          && k.availableAt == now + 1000 * Pow2(Min(10, Max(0, j.attempt - 1))) + seed % 1000)
  }

  // ----- what a call does -----

  predicate HeldUnder(j: Option<Job>, lease: LeaseId) {
    j.Some? && j.value.state.Leased? && j.value.leaseId == Some(lease)
  }

  /** What a lease attempt under these terms makes of a record. */
  predicate LeaseOutcome(before: Option<Job>, after: Option<Job>, lease: LeaseId, now: Time, expires: Time) {
    if before.None? || !IsDue(before.value, now) then after == before
    else
      after.Some? && if NoAttemptsLeft(before.value) then Died(before.value, after.value, now)
                     else Taken(before.value, after.value, lease, now, expires)
  }

  /** What a call makes of the record of a job. A sweep may leave a record alone because of its limit. */
  predicate Outcome(before: Option<Job>, after: Option<Job>, op: Op, id: JobId) {
    match op
    case Enqueue(spec, now) =>
      if spec.id == id && before.None? && spec.model != Some(OtherModel) then
        after.Some? && Born(after.value, spec, now)
      else after == before
    case LeaseById(job, lease, ms, now) =>
      if job == id && ms >= 1 then LeaseOutcome(before, after, lease, now, now + ms) else after == before
    case LeaseMany(scan, lease, ms, now) =>
      if id in scan && ms >= 1 then LeaseOutcome(before, after, lease, now, now + ms) else after == before
    case SweepExpired(scan, _, now) =>
      after == before || (id in scan && before.Some? && after.Some? && SweepOutcome(before.value, after.value, now))
    case CompleteJob(job, lease, output, effect, now) =>
      if job == id && HeldUnder(before, lease) then
        after.Some? && Finished(before.value, after.value, output, effect, now)
      else after == before
    case FailJob(job, lease, code, block, seed, now) =>
      if job == id && HeldUnder(before, lease) then
        after.Some? && GaveUp(before.value, after.value, code, block, seed, now)
      else after == before
  }

  predicate SweepOutcome(j: Job, k: Job, now: Time) {
    var expired := j.state.Leased? && j.leaseExpiresAt.Some? && j.leaseExpiresAt.value <= now;
    if NoAttemptsLeft(j) then (expired || j.state.Pending?) && Died(j, k, now) else expired && Freed(j, k, now)
  }

  lemma UnscannedStays(s: Store, scan: seq<JobId>, limit: int, now: Time, id: JobId)
    requires JobRaces.Keyed(s.jobs) && id !in scan
    ensures JobRaces.RowOf(SweepScan(s, scan, limit, now).store.jobs, id) == JobRaces.RowOf(s.jobs, id)
  {
    if scan != [] {
      var n := |scan| - 1;
      UnscannedStays(s, scan[..n], limit, now, id);
      JobRaces.SweepScanAt(s, scan[..n], limit, now, id);
      assert scan[n] in scan;
    }
  }

  lemma BackoffIs(attempts: int, seed: nat)
    ensures Backoff(attempts, seed) == 1000 * Pow2(Min(10, Max(0, attempts - 1))) + seed % 1000
  {
    Pow2Bounds(Min(10, Max(0, attempts - 1)));
  }

  lemma LeaseManyOutcome(s: Store, op: Op, id: JobId)
    requires JobRaces.Keyed(s.jobs) && op.LeaseMany?
    ensures Outcome(JobRaces.RowOf(s.jobs, id), JobRaces.RowOf(Apply(s, op).jobs, id), op, id)
  {
    if op.leaseMs >= 1 {
      JobRaces.LeaseScanAt(Issue(s, op.lease), op.scan, op.lease, op.now, op.now + op.leaseMs, id);
    }
  }

  lemma SweepCallOutcome(s: Store, op: Op, id: JobId)
    requires JobRaces.Keyed(s.jobs) && op.SweepExpired?
    ensures Outcome(JobRaces.RowOf(s.jobs, id), JobRaces.RowOf(Apply(s, op).jobs, id), op, id)
  {
    JobRaces.SweepScanAt(s, op.scan, op.limit, op.now, id);
    if id !in op.scan {
      UnscannedStays(s, op.scan, op.limit, op.now, id);
    }
  }

  lemma FailIs(j: Job, code: Failure, block: bool, seed: nat, now: Time)
    ensures GaveUp(j, Fail(j, code, block, seed, now), code, block, seed, now)
  {
    BackoffIs(j.attempt, seed);
  }

  lemma FailOutcome(s: Store, op: Op, id: JobId)
    requires JobRaces.Keyed(s.jobs) && op.FailJob?
    ensures Outcome(JobRaces.RowOf(s.jobs, id), JobRaces.RowOf(Apply(s, op).jobs, id), op, id)
  {
    if HeldIn(s, op.id, op.lease) {
      FailIs(s.jobs[op.id], op.code, op.block, op.seed, op.now);
    }
  }

  /** Every call leaves exactly this of every record. */
  lemma CallOutcome(s: Store, op: Op, id: JobId)
    requires StoreInv(s)
    ensures Outcome(JobRaces.RowOf(s.jobs, id), JobRaces.RowOf(Apply(s, op).jobs, id), op, id)
  {
    JobRaces.SoundIsKeyed(s);
    match op
    case LeaseMany(_, _, _, _) => LeaseManyOutcome(s, op, id);
    case SweepExpired(_, _, _) => SweepCallOutcome(s, op, id);
    case FailJob(_, _, _, _, _, _) => FailOutcome(s, op, id);
    case _ =>
  }

  // ----- what a call answers -----

  /** The jobs a bulk lease hands out: those of the scan that were due with attempts left, as they are now. */
  ghost predicate HandsOut(s: Store, t: Store, scan: seq<JobId>, now: Time, jobs: seq<Job>) {
    && (forall j :: j in jobs <==> HandedOut(s, t, scan, now, j))
    && forall m, n :: 0 <= m < n < |jobs| ==> jobs[m].id != jobs[n].id
  }

  predicate HandedOut(s: Store, t: Store, scan: seq<JobId>, now: Time, j: Job) {
    exists id :: id in scan && DueWithAttempts(s, id, now) && RowIs(t, id, j)
  }

  predicate DueWithAttempts(s: Store, id: JobId, now: Time) {
    id in s.jobs && IsDue(s.jobs[id], now) && !NoAttemptsLeft(s.jobs[id])
  }

  predicate RowIs(t: Store, id: JobId, j: Job) { id in t.jobs && t.jobs[id] == j }

  /** An item leased before the last one of a scan is not leased again by it. */
  lemma LastOfScan(s: Store, scan: seq<JobId>, lease: LeaseId, now: Time, expires: Time)
    requires JobRaces.Keyed(s.jobs) && now < expires && scan != []
    ensures var n := |scan| - 1; var t := LeaseScan(s, scan[..n], lease, now, expires);
      && (Grantable(t, scan[n], now) <==> scan[n] !in scan[..n] && Grantable(s, scan[n], now))
      && (Grantable(t, scan[n], now) ==> t.jobs[scan[n]] == s.jobs[scan[n]])
  {
    var n := |scan| - 1;
    JobRaces.LeaseScanAt(s, scan[..n], lease, now, expires, scan[n]);
  }

  /** The record of a job of the scan that can be leased, once leased. */
  ghost predicate LeasedFrom(s: Store, scan: seq<JobId>, lease: LeaseId, now: Time, expires: Time, j: Job) {
    j.id in scan && Grantable(s, j.id, now) && j == Grant(s.jobs[j.id], lease, now, expires)
  }

  ghost predicate ListsLeased(
    s: Store, scan: seq<JobId>, lease: LeaseId, now: Time, expires: Time, jobs: seq<Job>)
  {
    && (forall j :: j in jobs <==> LeasedFrom(s, scan, lease, now, expires, j))
    && forall m, n :: 0 <= m < n < |jobs| ==> jobs[m].id != jobs[n].id
  }

  /** A job already leased by the scan, or not to be leased, adds nothing. */
  lemma ListsNoMore(s: Store, scan: seq<JobId>, id: JobId, lease: LeaseId, now: Time, expires: Time, jobs: seq<Job>)
    requires ListsLeased(s, scan, lease, now, expires, jobs) && (id in scan || !Grantable(s, id, now))
    ensures ListsLeased(s, scan + [id], lease, now, expires, jobs)
  {
    forall j ensures j in jobs <==> LeasedFrom(s, scan + [id], lease, now, expires, j) {
      assert LeasedFrom(s, scan + [id], lease, now, expires, j) <==> LeasedFrom(s, scan, lease, now, expires, j);
    }
  }

  lemma ListsOneMore(s: Store, scan: seq<JobId>, id: JobId, lease: LeaseId, now: Time, expires: Time, jobs: seq<Job>)
    requires JobRaces.Keyed(s.jobs) && ListsLeased(s, scan, lease, now, expires, jobs)
    requires id !in scan && Grantable(s, id, now)
    ensures ListsLeased(s, scan + [id], lease, now, expires, jobs + [Grant(s.jobs[id], lease, now, expires)])
  {
    var job := Grant(s.jobs[id], lease, now, expires);
    forall j ensures j in jobs + [job] <==> LeasedFrom(s, scan + [id], lease, now, expires, j) {
      assert j in jobs <==> LeasedFrom(s, scan, lease, now, expires, j);
    }
    forall m | 0 <= m < |jobs| ensures jobs[m].id != id {
      assert jobs[m] in jobs;
      assert LeasedFrom(s, scan, lease, now, expires, jobs[m]);
    }
  }

  lemma {:induction false} LeasedJobsAre(s: Store, scan: seq<JobId>, lease: LeaseId, now: Time, expires: Time)
    requires JobRaces.Keyed(s.jobs) && now < expires
    ensures ListsLeased(s, scan, lease, now, expires, LeasedJobs(s, scan, lease, now, expires))
  {
    if scan != [] {
      var n := |scan| - 1;
      var rest := LeasedJobs(s, scan[..n], lease, now, expires);
      assert scan == scan[..n] + [scan[n]];
      LeasedJobsAre(s, scan[..n], lease, now, expires);
      LastOfScan(s, scan, lease, now, expires);
      if scan[n] !in scan[..n] && Grantable(s, scan[n], now) {
        ListsOneMore(s, scan[..n], scan[n], lease, now, expires, rest);
      } else {
        ListsNoMore(s, scan[..n], scan[n], lease, now, expires, rest);
        assert LeasedJobs(s, scan, lease, now, expires) == rest + [] == rest;
      }
    }
  }

  /** They are the jobs of the ids it leases. */
  lemma {:induction false} LeasedJobsHaveIds(s: Store, scan: seq<JobId>, lease: LeaseId, now: Time, expires: Time)
    requires JobRaces.Keyed(s.jobs) && now < expires
    ensures var jobs, ids := LeasedJobs(s, scan, lease, now, expires), LeasedIds(s, scan, lease, now, expires);
      |jobs| == |ids| && forall k :: 0 <= k < |jobs| ==> jobs[k].id == ids[k]
  {
    if scan != [] {
      var n := |scan| - 1;
      LeasedJobsHaveIds(s, scan[..n], lease, now, expires);
      LastOfScan(s, scan, lease, now, expires);
    }
  }

  lemma GrantedStands(s: Store, scan: seq<JobId>, lease: LeaseId, now: Time, expires: Time, id: JobId)
    requires JobRaces.Keyed(s.jobs) && now < expires && id in scan && Grantable(s, id, now)
    ensures RowIs(LeaseScan(s, scan, lease, now, expires), id, Grant(s.jobs[id], lease, now, expires))
  {
    JobRaces.LeaseScanAt(s, scan, lease, now, expires, id);
  }

  /** Being handed out is having been due and standing there as leased. */
  lemma HandedOutIff(s: Store, t: Store, scan: seq<JobId>, lease: LeaseId, now: Time, expires: Time, j: Job)
    requires JobRaces.Keyed(s.jobs)
    requires forall id :: id in scan && Grantable(s, id, now) ==> RowIs(t, id, Grant(s.jobs[id], lease, now, expires))
    ensures LeasedFrom(s, scan, lease, now, expires, j) <==> HandedOut(s, t, scan, now, j)
  {
    forall id ensures DueWithAttempts(s, id, now) <==> Grantable(s, id, now) {
    }
    if id :| id in scan && DueWithAttempts(s, id, now) && RowIs(t, id, j) {
      assert s.jobs[id].id == id;
    }
  }

  lemma BulkLeaseStands(s: Store, scan: seq<JobId>, lease: LeaseId, ms: int, now: Time, id: JobId)
    requires JobRaces.Keyed(s.jobs) && ms >= 1 && id in scan && Grantable(s, id, now)
    ensures RowIs(Apply(s, LeaseMany(scan, lease, ms, now)), id, Grant(s.jobs[id], lease, now, now + ms))
  {
    GrantedStands(Issue(s, lease), scan, lease, now, now + ms, id);
  }

  lemma ListedAreHandedOut(
    s: Store, t: Store, scan: seq<JobId>, lease: LeaseId, now: Time, expires: Time, jobs: seq<Job>)
    requires JobRaces.Keyed(s.jobs) && ListsLeased(s, scan, lease, now, expires, jobs)
    requires forall id :: id in scan && Grantable(s, id, now) ==> RowIs(t, id, Grant(s.jobs[id], lease, now, expires))
    ensures HandsOut(s, t, scan, now, jobs)
  {
    forall j ensures j in jobs <==> HandedOut(s, t, scan, now, j) {
      HandedOutIff(s, t, scan, lease, now, expires, j);
    }
  }

  lemma BulkLeaseHandsOut(s: Store, scan: seq<JobId>, lease: LeaseId, ms: int, now: Time)
    requires JobRaces.Keyed(s.jobs) && ms >= 1
    ensures HandsOut(s, Apply(s, LeaseMany(scan, lease, ms, now)), scan, now,
                     LeasedJobs(s, scan, lease, now, now + ms))
  {
    var t, jobs := Apply(s, LeaseMany(scan, lease, ms, now)), LeasedJobs(s, scan, lease, now, now + ms);
    LeasedJobsAre(s, scan, lease, now, now + ms);
    forall id | id in scan && Grantable(s, id, now)
      ensures RowIs(t, id, Grant(s.jobs[id], lease, now, now + ms))
    {
      BulkLeaseStands(s, scan, lease, ms, now, id);
    }
    ListedAreHandedOut(s, t, scan, lease, now, now + ms, jobs);
  }

  /** What a call answers, by the records before and after it. */
  ghost predicate Tells(s: Store, t: Store, op: Op, answer: JobRaces.Answer) {
    match answer
    case Refused =>
      && t.jobs == s.jobs
      && (op.Enqueue? ==> op.spec.id !in s.jobs && op.spec.model == Some(OtherModel))
      && (op.LeaseById? || op.LeaseMany? ==> op.leaseMs < 1) && (op.SweepExpired? ==> op.limit < 1)
      && !op.CompleteJob? && !op.FailJob?
    case Stored(job) => op.Enqueue? && RowIs(t, op.spec.id, job)
    case Lease(job) =>
      && op.LeaseById? && (job.Some? <==> DueWithAttempts(s, op.id, op.now))
      && (job.Some? ==> RowIs(t, op.id, job.value))
    case Leases(jobs) => op.LeaseMany? && HandsOut(s, t, op.scan, op.now, jobs)
    case Swept(reclaimed, dead) =>
      op.SweepExpired? && |MovedToPending(s, t)| == reclaimed && |MovedToDead(s, t)| == dead
    case Done(ok) =>
      (op.CompleteJob? || op.FailJob?) && (ok <==> HeldUnder(JobRaces.RowOf(s.jobs, op.id), op.lease))
  }

  /** Every call answers by the records it found and left. */
  lemma AnswersTellRecords(s: Store, op: Op)
    requires StoreInv(s)
    ensures Tells(s, Apply(s, op), op, JobRaces.AnswerOf(s, op))
  {
    JobRaces.SoundIsKeyed(s);
    match op
    case LeaseMany(scan, lease, ms, now) =>
      if ms >= 1 {
        BulkLeaseHandsOut(s, scan, lease, ms, now);
      }
    case SweepExpired(scan, limit, now) =>
      if limit >= 1 {
        SweepCounts(s, scan, limit, now);
      }
    case _ =>
  }

  // ----- runs -----

  /** A call that changes a stored job keeps its identity. */
  lemma IdentityStays(s: Store, op: Op, id: JobId)
    requires StoreInv(s) && id in s.jobs
    ensures id in Apply(s, op).jobs && SameIdentity(s.jobs[id], Apply(s, op).jobs[id])
  {
    CallOutcome(s, op, id);
  }

  /** The call at `k` stored the job for the first time. */
  ghost predicate BornAt(ops: seq<Op>, k: nat, id: JobId) {
    && k < |ops| && ops[k].Enqueue? && ops[k].spec.id == id
    && id !in Run(EMPTY, ops[..k]).jobs && id in Run(EMPTY, ops[..k + 1]).jobs
    && Born(Run(EMPTY, ops[..k + 1]).jobs[id], ops[k].spec, ops[k].now)
  }

  lemma FreshPrefix(ops: seq<Op>)
    requires ops != [] && FreshRun(EMPTY, ops)
    ensures FreshRun(EMPTY, ops[..|ops| - 1]) && StoreInv(Run(EMPTY, ops[..|ops| - 1]))
  {
    ReachableStoresAreSound(ops[..|ops| - 1]);
  }

  /** In every run a stored job is what its first enqueue made it, as far as its identity goes. */
  lemma {:induction false} JobsComeFromEnqueues(ops: seq<Op>, id: JobId) returns (k: nat)
    requires FreshRun(EMPTY, ops) && id in Run(EMPTY, ops).jobs
    ensures BornAt(ops, k, id) && SameIdentity(Run(EMPTY, ops[..k + 1]).jobs[id], Run(EMPTY, ops).jobs[id])
  {
    var n := |ops| - 1;
    FreshPrefix(ops);
    assert ops[..n + 1] == ops;
    if id in Run(EMPTY, ops[..n]).jobs {
      k := JobsComeFromEnqueues(ops[..n], id);
      IdentityStays(Run(EMPTY, ops[..n]), ops[n], id);
      assert ops[..n][..k] == ops[..k] && ops[..n][..k + 1] == ops[..k + 1];
    } else {
      CallOutcome(Run(EMPTY, ops[..n]), ops[n], id);
      k := n;
    }
  }

  /** The call at `k` answered that it completed the job. */
  predicate CompletedAt(ops: seq<Op>, k: nat, id: JobId) {
    && k < |ops| && ops[k].CompleteJob? && ops[k].id == id
    && HeldUnder(JobRaces.RowOf(Run(EMPTY, ops[..k]).jobs, id), ops[k].lease)
  }

  /** A completion that answers true stores the output and effect it was given. */
  lemma CompletionStores(ops: seq<Op>, k: nat, id: JobId)
    requires FreshRun(EMPTY, ops) && CompletedAt(ops, k, id)
    ensures id in Run(EMPTY, ops[..k + 1]).jobs
    ensures Finished(Run(EMPTY, ops[..k]).jobs[id], Run(EMPTY, ops[..k + 1]).jobs[id],
                     ops[k].output, ops[k].effect, ops[k].now)
  {
    FreshUpTo(ops, k);
    ReachableStoresAreSound(ops[..k]);
    CallOutcome(Run(EMPTY, ops[..k]), ops[k], id);
    assert ops[..k + 1][..k] == ops[..k];
  }

  lemma {:induction false} FreshUpTo(ops: seq<Op>, k: nat)
    requires k <= |ops| && FreshRun(EMPTY, ops)
    ensures FreshRun(EMPTY, ops[..k])
  {
    if k == |ops| {
      assert ops[..k] == ops;
    } else {
      FreshUpTo(ops[..|ops| - 1], k);
      assert ops[..|ops| - 1][..k] == ops[..k];
    }
  }

  predicate SucceededIn(ops: seq<Op>, id: JobId) {
    id in Run(EMPTY, ops).jobs && Run(EMPTY, ops).jobs[id].state.Succeeded?
  }

  /** In every run a succeeded job was completed by one call, and its record is still the one that call left. */
  lemma {:induction false} SuccessIsItsCompletion(ops: seq<Op>, id: JobId) returns (k: nat)
    requires FreshRun(EMPTY, ops) && SucceededIn(ops, id)
    ensures CompletedAt(ops, k, id)
    ensures Finished(Run(EMPTY, ops[..k]).jobs[id], Run(EMPTY, ops).jobs[id], ops[k].output, ops[k].effect, ops[k].now)
    ensures forall m: nat :: CompletedAt(ops, m, id) ==> m == k
  {
    k := SuccessWasCompleted(ops, id);
    forall m: nat | CompletedAt(ops, m, id) ensures m == k {
      CompletesOnce(ops, if m < k then m else k, if m < k then k else m, id);
    }
  }

  lemma {:induction false} SuccessWasCompleted(ops: seq<Op>, id: JobId) returns (k: nat)
    requires FreshRun(EMPTY, ops) && SucceededIn(ops, id)
    ensures CompletedAt(ops, k, id)
    ensures Finished(Run(EMPTY, ops[..k]).jobs[id], Run(EMPTY, ops).jobs[id], ops[k].output, ops[k].effect, ops[k].now)
  {
    var n := |ops| - 1;
    FreshPrefix(ops);
    CallOutcome(Run(EMPTY, ops[..n]), ops[n], id);
    if SucceededIn(ops[..n], id) {
      k := SuccessWasCompleted(ops[..n], id);
      assert ops[..n][..k] == ops[..k];
    } else {
      k := n;
    }
  }

  lemma CompletesOnce(ops: seq<Op>, m: nat, k: nat, id: JobId)
    requires FreshRun(EMPTY, ops) && m <= k && CompletedAt(ops, m, id) && CompletedAt(ops, k, id)
    ensures m == k
  {
    if m < k {
      CompletionStores(ops, m, id);
      StaysSucceeded(ops, m + 1, k, id);
    }
  }

  lemma {:induction false} StaysSucceeded(ops: seq<Op>, m: nat, n: nat, id: JobId)
    requires m <= n <= |ops| && FreshRun(EMPTY, ops)
    requires id in Run(EMPTY, ops[..m]).jobs && Run(EMPTY, ops[..m]).jobs[id].state.Succeeded?
    ensures id in Run(EMPTY, ops[..n]).jobs && Run(EMPTY, ops[..n]).jobs[id].state.Succeeded?
  {
    if m < n {
      StaysSucceeded(ops, m, n - 1, id);
      FreshUpTo(ops, n - 1);
      ReachableStoresAreSound(ops[..n - 1]);
      CallOutcome(Run(EMPTY, ops[..n - 1]), ops[n - 1], id);
      assert ops[..n][..n - 1] == ops[..n - 1];
    }
  }

  // ----- scans -----

  predicate Before(a: Time, x: JobId, b: Time, y: JobId) { a < b || (a == b && x < y) }

  /** The keys of the wanted jobs: their time and their id. */
  ghost predicate KeysOf(s: Store, keys: set<Key>, wanted: Job -> bool, time: Job -> Time) {
    forall k :: k in keys <==> k.1 in s.jobs && wanted(s.jobs[k.1]) && k.0 == time(s.jobs[k.1])
  }

  /** Lists wanted jobs by their time and then by id, at most `limit` of them, and leaves out only later ones. */
  ghost predicate OldestFirst(s: Store, ids: seq<JobId>, wanted: Job -> bool, time: Job -> Time, limit: int) {
    && (forall id :: id in ids ==> id in s.jobs && wanted(s.jobs[id]))
    && (forall i, j :: 0 <= i < j < |ids| && ids[i] in s.jobs && ids[j] in s.jobs ==>
          Before(time(s.jobs[ids[i]]), ids[i], time(s.jobs[ids[j]]), ids[j]))
    && |ids| <= Max(0, limit)
    && (forall id :: id in s.jobs && wanted(s.jobs[id]) && id !in ids ==> |ids| == Max(0, limit))
    && (forall id, x :: id in s.jobs && wanted(s.jobs[id]) && id !in ids && x in ids && x in s.jobs ==>
          Before(time(s.jobs[x]), x, time(s.jobs[id]), id))
  }

  lemma ScanIsSorted(s: Store, keys: set<Key>, wanted: Job -> bool, time: Job -> Time, limit: int, i: nat, j: nat)
    requires KeysOf(s, keys, wanted, time) && i < j < |FirstIds(keys, limit)|
    ensures var ids := FirstIds(keys, limit);
      && ids[i] in s.jobs && ids[j] in s.jobs
      && Before(time(s.jobs[ids[i]]), ids[i], time(s.jobs[ids[j]]), ids[j])
  {
    JobScans.KeysOrder();
    OrderByLists(keys, KeyBefore);
    var all := OrderBy(keys, KeyBefore);
    assert all[i] in all && all[j] in all && KeyBefore(all[i], all[j]);
  }

  lemma ScanIsOldestFirst(s: Store, keys: set<Key>, wanted: Job -> bool, time: Job -> Time, limit: int)
    requires KeysOf(s, keys, wanted, time)
    ensures OldestFirst(s, FirstIds(keys, limit), wanted, time, limit)
  {
    var ids := FirstIds(keys, limit);
    FirstIdsFacts(keys, limit);
    forall id | id in ids ensures id in s.jobs && wanted(s.jobs[id]) {
      var k :| k in keys && k.1 == id;
    }
    forall i, j | 0 <= i < j < |ids| ensures Before(time(s.jobs[ids[i]]), ids[i], time(s.jobs[ids[j]]), ids[j]) {
      ScanIsSorted(s, keys, wanted, time, limit, i, j);
    }
    forall id | id in s.jobs && wanted(s.jobs[id]) && id !in ids
      ensures |ids| == Max(0, limit)
      ensures forall x :: x in ids && x in s.jobs ==> Before(time(s.jobs[x]), x, time(s.jobs[id]), id)
    {
      OmittedComesLater(keys, limit, (time(s.jobs[id]), id));
      forall x | x in ids && x in s.jobs ensures Before(time(s.jobs[x]), x, time(s.jobs[id]), id) {
        assert (time(s.jobs[x]), x) in keys;
      }
    }
  }

  predicate InScope(j: Job, filter: Option<ZoneId>) { filter.None? || j.zone == filter.value }

  predicate IsOverdue(j: Job, now: Time) {
    || (j.state.Leased? && j.leaseExpiresAt.Some? && j.leaseExpiresAt.value <= now)
    || (j.state.Pending? && NoAttemptsLeft(j))
  }

  function DueIn(filter: Option<ZoneId>, now: Time): Job -> bool { (j: Job) => InScope(j, filter) && IsDue(j, now) }

  function OverdueIn(filter: Option<ZoneId>, now: Time): Job -> bool {
    (j: Job) => InScope(j, filter) && IsOverdue(j, now)
  }

  function AvailableAt(j: Job): Time { j.availableAt }

  function UpdatedAt(j: Job): Time { j.updatedAt }

  lemma DueKeys(s: Store, filter: Option<ZoneId>, now: Time)
    ensures KeysOf(s, Due(s, filter, now), DueIn(filter, now), AvailableAt)
  {
    var keys := Due(s, filter, now);
    forall k: Key
      ensures k in keys <==> k.1 in s.jobs && DueIn(filter, now)(s.jobs[k.1]) && k.0 == AvailableAt(s.jobs[k.1])
    {
      var (time, id) := k;
      if id in s.jobs && DueIn(filter, now)(s.jobs[id]) {
        assert (s.jobs[id].availableAt, id) in keys;
      }
    }
  }

  lemma OverdueKeys(s: Store, filter: Option<ZoneId>, now: Time)
    ensures KeysOf(s, Overdue(s, filter, now), OverdueIn(filter, now), UpdatedAt)
  {
    var keys := Overdue(s, filter, now);
    forall k: Key
      ensures k in keys <==> k.1 in s.jobs && OverdueIn(filter, now)(s.jobs[k.1]) && k.0 == UpdatedAt(s.jobs[k.1])
    {
      var (time, id) := k;
      if id in s.jobs && OverdueIn(filter, now)(s.jobs[id]) {
        assert (s.jobs[id].updatedAt, id) in keys;
      }
    }
  }

  /** The bulk lease scans due jobs of its zone by `available_at`; the sweep scans overdue ones by `updated_at`. */
  lemma ScansAreOldestFirst(s: Store, filter: Option<ZoneId>, limit: int, now: Time)
    ensures OldestFirst(s, FirstIds(Due(s, filter, now), limit), DueIn(filter, now), AvailableAt, limit)
    ensures OldestFirst(s, FirstIds(Overdue(s, filter, now), limit), OverdueIn(filter, now), UpdatedAt, limit)
  {
    DueKeys(s, filter, now);
    OverdueKeys(s, filter, now);
    ScanIsOldestFirst(s, Due(s, filter, now), DueIn(filter, now), AvailableAt, limit);
    ScanIsOldestFirst(s, Overdue(s, filter, now), OverdueIn(filter, now), UpdatedAt, limit);
  }
}
