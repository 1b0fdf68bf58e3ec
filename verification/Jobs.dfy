/**
 * The durable agentic job store: what each operation does to one job record, and to the whole store.
 *
 * Job, zone, source and lease ids are opaque; only their equality and (for `ORDER BY job_id`) their order
 * matter, so they are integers here. So are timestamps, which the original compares as ISO strings.
 */
module Jobs {
  import opened Wrappers
  import opened Ordering

  type JobId = int
  type ZoneId = int
  type LeaseId = int
  type Time = int

  datatype State = Pending | Leased | Succeeded | Blocked | Dead

  datatype Model = Fake | Flash | OtherModel

  datatype Stage = Admit | Pack | Triage | Extract | Verify | Structure | Gate | Materialize | Project | Reconcile

  datatype Effect = NoEffect | ObservationEffect | DraftClaimEffect

  datatype Failure = MaxAttemptsExhausted | LeaseExpired | Reported(code: int)

  datatype Job = Job(
    id: JobId, zone: ZoneId, source: int, stage: Stage, model: Model, inputDigest: int,
    state: State, outputDigest: Option<int>, attempt: int, maxAttempts: int,
    availableAt: Time, leasedAt: Option<Time>, leaseId: Option<LeaseId>, leaseExpiresAt: Option<Time>,
    finishedAt: Option<Time>, errorCode: Option<Failure>, lastError: Option<Failure>, effect: Effect,
    createdAt: Time, updatedAt: Time
  )

  /** What `enqueueAgenticJob` is asked for; `id` and `inputDigest` are the digests of the stage identity. */
  datatype Spec = Spec(
    id: JobId, inputDigest: int, zone: ZoneId, source: int, stage: Stage, model: Option<Model>,
    maxAttempts: Option<int>, availableAt: Option<Time>, effect: Option<Effect>
  )

  const DEFAULT_MAX_ATTEMPTS := 8

  function GetOr<T>(o: Option<T>, default: T): T {
    match o case Some(v) => v case None => default
  }

  function OrElse<T>(o: Option<T>, other: Option<T>): Option<T> { if o.Some? then o else other }

  predicate Terminal(s: State) { s.Succeeded? || s.Blocked? || s.Dead? }

  // ----- one job -----

  function NewJob(spec: Spec, now: Time): Job {
    Job(spec.id, spec.zone, spec.source, spec.stage, GetOr(spec.model, Fake), spec.inputDigest,
        Pending, None, 0, GetOr(spec.maxAttempts, DEFAULT_MAX_ATTEMPTS),
        GetOr(spec.availableAt, now), None, None, None, None, None, None, GetOr(spec.effect, NoEffect), now, now)
  }

  /** The write fence `assertJob`: a stored job names a known model. */
  predicate Writable(j: Job) { j.model != OtherModel }

  predicate ExpiredBy(j: Job, now: Time) {
    j.state.Leased? && j.leaseExpiresAt.Some? && j.leaseExpiresAt.value <= now
  }

  predicate Leaseable(j: Job, now: Time) {
    j.availableAt <= now && (j.state.Pending? || ExpiredBy(j, now))
  }

  predicate Spent(j: Job) { j.attempt >= j.maxAttempts }

  function WithoutLease(j: Job): Job { j.(leaseId := None, leaseExpiresAt := None, leasedAt := None) }

  function Exhaust(j: Job, now: Time): Job {
    WithoutLease(j).(
      state := Dead, finishedAt := Some(now), updatedAt := now,
      errorCode := OrElse(j.errorCode, Some(MaxAttemptsExhausted)),
      lastError := OrElse(j.lastError, Some(MaxAttemptsExhausted)))
  }

  function Grant(j: Job, lease: LeaseId, now: Time, expires: Time): Job {
    j.(state := Leased, attempt := j.attempt + 1, leaseId := Some(lease), leaseExpiresAt := Some(expires),
       leasedAt := Some(now), updatedAt := now, errorCode := None, lastError := None)
  }

  function Reclaim(j: Job, now: Time): Job {
    WithoutLease(j).(
      state := Pending, availableAt := now, finishedAt := None, updatedAt := now,
      errorCode := OrElse(j.errorCode, Some(LeaseExpired)), lastError := OrElse(j.lastError, Some(LeaseExpired)))
  }

  predicate Holds(j: Job, lease: LeaseId) { j.state.Leased? && j.leaseId == Some(lease) }

  function Complete(j: Job, output: Option<int>, effect: Option<Effect>, now: Time): Job {
    WithoutLease(j).(
      state := Succeeded, outputDigest := OrElse(output, j.outputDigest), effect := GetOr(effect, j.effect),
      finishedAt := Some(now), updatedAt := now, errorCode := None, lastError := None)
  }

  function Pow2(n: nat): nat { if n == 0 then 1 else 2 * Pow2(n - 1) }

  /** `boundedBackoff`, in milliseconds; `seed` is the hash of the job id. */
  function Backoff(attempts: int, seed: nat): int {
    Min(3600000, 1000 * Pow2(Min(10, Max(0, attempts - 1)))) + seed % 1000
  }

  function Fail(j: Job, code: Failure, block: bool, seed: nat, now: Time): Job {
    var released := WithoutLease(j).(updatedAt := now, errorCode := Some(code), lastError := Some(code));
    if block then released.(state := Blocked, finishedAt := Some(now))
    else if Spent(j) then released.(state := Dead, finishedAt := Some(now))
    else released.(state := Pending, availableAt := now + Backoff(j.attempt, seed), finishedAt := None)
  }

  // ----- the store, with the history of every job -----

  /** What has happened to a job, oldest first. */
  datatype Touch =
    | Created
    | Granted(lease: LeaseId, at: Time, expires: Time)
    | Expired(at: Time)
    | Exhausted(at: Time)
    | Completed(lease: LeaseId)
    | Failed(lease: LeaseId)

  /** The records, each with its history, and the lease ids issued so far. */
  datatype Store = Store(jobs: map<JobId, Job>, history: map<JobId, seq<Touch>>, issued: set<LeaseId>)

  function HistoryOf(s: Store, id: JobId): seq<Touch> { if id in s.history then s.history[id] else [] }

  /** Writes a record and records why. */
  function Put(s: Store, j: Job, touch: Touch): Store {
    s.(jobs := s.jobs[j.id := j], history := s.history[j.id := HistoryOf(s, j.id) + [touch]])
  }

  function EnqueueIn(s: Store, spec: Spec, now: Time): Store {
    var job := NewJob(spec, now);
    if spec.id in s.jobs || !Writable(job) then s else Put(s, job, Created)
  }

  /** The step a lease call makes at one job id, inside its transaction. */
  function LeaseOne(s: Store, id: JobId, lease: LeaseId, now: Time, expires: Time): Store {
    if id !in s.jobs || !Leaseable(s.jobs[id], now) then s
    else if Spent(s.jobs[id]) then Put(s, Exhaust(s.jobs[id], now), Exhausted(now))
    else Put(s, Grant(s.jobs[id], lease, now, expires), Granted(lease, now, expires))
  }

  predicate Grantable(s: Store, id: JobId, now: Time) {
    id in s.jobs && Leaseable(s.jobs[id], now) && !Spent(s.jobs[id])
  }

  /** The bulk lease at the ids its scan returned, in order. */
  function LeaseScan(s: Store, scan: seq<JobId>, lease: LeaseId, now: Time, expires: Time): Store {
    if scan == [] then s
    else
      var n := |scan| - 1;
      LeaseOne(LeaseScan(s, scan[..n], lease, now, expires), scan[n], lease, now, expires)
  }

  /** The ids the bulk lease returns. */
  function LeasedIds(s: Store, scan: seq<JobId>, lease: LeaseId, now: Time, expires: Time): seq<JobId> {
    if scan == [] then []
    else
      var n := |scan| - 1;
      var granted := LeasedIds(s, scan[..n], lease, now, expires);
      if Grantable(LeaseScan(s, scan[..n], lease, now, expires), scan[n], now) then granted + [scan[n]] else granted
  }

  /** Their records, as it returns them. */
  function LeasedJobs(s: Store, scan: seq<JobId>, lease: LeaseId, now: Time, expires: Time): seq<Job> {
    if scan == [] then []
    else
      var n := |scan| - 1;
      var t := LeaseScan(s, scan[..n], lease, now, expires);
      LeasedJobs(s, scan[..n], lease, now, expires)
      + if Grantable(t, scan[n], now) then [Grant(t.jobs[scan[n]], lease, now, expires)] else []
  }

  predicate Reclaimable(j: Job, now: Time) { ExpiredBy(j, now) || (j.state.Pending? && Spent(j)) }

  function ReclaimOne(s: Store, id: JobId, now: Time): Store {
    if id !in s.jobs || !Reclaimable(s.jobs[id], now) then s
    else if Spent(s.jobs[id]) then Put(s, Exhaust(s.jobs[id], now), Exhausted(now))
    else Put(s, Reclaim(s.jobs[id], now), Expired(now))
  }

  /** The store after the sweep, with the numbers of rows it moved to pending and to dead. */
  datatype Sweep = Sweep(store: Store, reclaimed: nat, dead: nat)

  function SweepOne(w: Sweep, id: JobId, limit: int, now: Time): Sweep {
    if w.reclaimed + w.dead >= limit || id !in w.store.jobs || !Reclaimable(w.store.jobs[id], now) then w
    else
      var after := ReclaimOne(w.store, id, now);
      if Spent(w.store.jobs[id]) then Sweep(after, w.reclaimed, w.dead + 1)
      else Sweep(after, w.reclaimed + 1, w.dead)
  }

  function SweepScan(s: Store, scan: seq<JobId>, limit: int, now: Time): Sweep {
    if scan == [] then Sweep(s, 0, 0)
    else SweepOne(SweepScan(s, scan[..|scan| - 1], limit, now), scan[|scan| - 1], limit, now)
  }

  predicate HeldIn(s: Store, id: JobId, lease: LeaseId) { id in s.jobs && Holds(s.jobs[id], lease) }

  function CompleteIn(
    s: Store, id: JobId, lease: LeaseId, output: Option<int>, effect: Option<Effect>, now: Time): Store
  {
    if !HeldIn(s, id, lease) then s
    else Put(s, Complete(s.jobs[id], output, effect, now), Completed(lease))
  }

  function FailIn(
    s: Store, id: JobId, lease: LeaseId, code: Failure, block: bool, seed: nat, now: Time): Store
  {
    if !HeldIn(s, id, lease) then s
    else Put(s, Fail(s.jobs[id], code, block, seed, now), Failed(lease))
  }

  // ----- the operations -----

  /** One call. A bulk lease or a sweep carries the ids its scan saw, which may be stale. */
  datatype Op =
    | Enqueue(spec: Spec, now: Time)
    | LeaseById(id: JobId, lease: LeaseId, leaseMs: int, now: Time)
    | LeaseMany(scan: seq<JobId>, lease: LeaseId, leaseMs: int, now: Time)
    | SweepExpired(scan: seq<JobId>, limit: int, now: Time)
    | CompleteJob(id: JobId, lease: LeaseId, output: Option<int>, effect: Option<Effect>, now: Time)
    | FailJob(id: JobId, lease: LeaseId, code: Failure, block: bool, seed: nat, now: Time)

  function Issue(s: Store, lease: LeaseId): Store { s.(issued := s.issued + {lease}) }

  function Apply(s: Store, op: Op): Store {
    match op
    case Enqueue(spec, now) => EnqueueIn(s, spec, now)
    case LeaseById(id, lease, ms, now) =>
      if ms < 1 then s else LeaseOne(Issue(s, lease), id, lease, now, now + ms)
    case LeaseMany(scan, lease, ms, now) =>
      if ms < 1 then s else LeaseScan(Issue(s, lease), scan, lease, now, now + ms)
    case SweepExpired(scan, limit, now) => if limit < 1 then s else SweepScan(s, scan, limit, now).store
    case CompleteJob(id, lease, output, effect, now) => CompleteIn(s, id, lease, output, effect, now)
    case FailJob(id, lease, code, block, seed, now) => FailIn(s, id, lease, code, block, seed, now)
  }

  /** Lease ids are drawn at random; a fresh one has not been issued before. */
  predicate Fresh(s: Store, op: Op) { op.LeaseById? || op.LeaseMany? ==> op.lease !in s.issued }

  function Run(s: Store, ops: seq<Op>): Store {
    if ops == [] then s else Apply(Run(s, ops[..|ops| - 1]), ops[|ops| - 1])
  }

  predicate FreshRun(s: Store, ops: seq<Op>) {
    ops == [] || (FreshRun(s, ops[..|ops| - 1]) && Fresh(Run(s, ops[..|ops| - 1]), ops[|ops| - 1]))
  }

  const EMPTY := Store(map[], map[], {})
}
