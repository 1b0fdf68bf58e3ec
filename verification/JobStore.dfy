/**
 * The table `agentic_jobs`: each row holds a job record and, beside it, the columns that the scans
 * read. Every method is one transaction, proved to take the model of Jobs.dfy from one state to the
 * next and to keep the columns equal to the record.
 */
module JobTable {
  import opened Wrappers
  import opened Jobs

  datatype Row = Row(
    zone: ZoneId, source: int, stage: Stage, state: State, inputDigest: int, attempt: int, availableAt: Time,
    leaseId: Option<LeaseId>, leaseExpiresAt: Option<Time>, job: Job, updatedAt: Time
  )

  datatype LeasedJob = LeasedJob(leaseId: LeaseId, leaseExpiresAt: Time, job: Job)

  datatype StoreError = InvalidJob | InvalidLeaseMs | InvalidLimit

  /** Every column equals the field of the stored record. */
  predicate Indexed(id: JobId, row: Row) {
    && row.job.id == id
    && row.zone == row.job.zone && row.source == row.job.source && row.stage == row.job.stage
    && row.state == row.job.state && row.inputDigest == row.job.inputDigest
    && row.attempt == row.job.attempt && row.availableAt == row.job.availableAt
    && row.leaseId == row.job.leaseId && row.leaseExpiresAt == row.job.leaseExpiresAt
    && row.updatedAt == row.job.updatedAt
  }

  predicate IndexAgrees(rows: map<JobId, Row>) { forall id :: id in rows ==> Indexed(id, rows[id]) }

  /** The record keeps the columns an update does not write. */
  predicate SameIdentity(row: Row, job: Job) {
    row.job.id == job.id && row.zone == job.zone && row.source == job.source && row.stage == job.stage
    && row.inputDigest == job.inputDigest
  }

  class JobStore {
    var rows: map<JobId, Row>
    ghost var history: map<JobId, seq<Touch>>
    ghost var issued: set<LeaseId>

    ghost predicate Valid()
      reads this
    {
      && IndexAgrees(rows)
      && (forall id :: id in rows ==> Writable(rows[id].job))
    }

    ghost function Model(): Store
      reads this
    {
      Store(map id | id in rows :: rows[id].job, history, issued)
    }

    constructor ()
      ensures Valid() && Model() == EMPTY
    {
      rows, history, issued := map[], map[], {};
    }

    /** `INSERT ... ON CONFLICT(job_id) DO UPDATE`: an update leaves the identity columns alone. */
    method WriteJob(job: Job, ghost touch: Touch) returns (ok: bool)
      requires Valid()
      requires job.id in rows ==> SameIdentity(rows[job.id], job)
      modifies this
      ensures Valid() && ok == Writable(job)
      ensures Model() == if ok then Put(old(Model()), job, touch) else old(Model())
      ensures rows.Keys == if ok then old(rows.Keys) + {job.id} else old(rows.Keys)
      ensures forall id :: id in old(rows) && id != job.id ==> id in rows && rows[id] == old(rows[id])
    {
      if job.model == OtherModel {
        return false;
      }
      ghost var before := Model();
      var row := if job.id in rows
        then rows[job.id].(
          state := job.state, attempt := job.attempt, availableAt := job.availableAt, leaseId := job.leaseId,
          leaseExpiresAt := job.leaseExpiresAt, job := job, updatedAt := job.updatedAt)
        else Row(job.zone, job.source, job.stage, job.state, job.inputDigest, job.attempt, job.availableAt,
                 job.leaseId, job.leaseExpiresAt, job, job.updatedAt);
      rows := rows[job.id := row];
      history := history[job.id := HistoryOf(before, job.id) + [touch]];
      assert Model().jobs == before.jobs[job.id := job];
      return true;
    }

    method EnqueueJob(spec: Spec, now: Time) returns (r: Result<Job, StoreError>)
      requires Valid()
      modifies this
      ensures Valid() && Model() == Apply(old(Model()), Enqueue(spec, now))
      ensures r == if spec.id in old(rows) then Ok(old(rows[spec.id].job))
        else if Writable(NewJob(spec, now)) then Ok(NewJob(spec, now)) else Err(InvalidJob)
    {
      if spec.id in rows {
        return Ok(rows[spec.id].job);
      }
      var job := NewJob(spec, now);
      var ok := WriteJob(job, Created);
      return if ok then Ok(job) else Err(InvalidJob);
    }

    /** The locked re-check both lease calls make at one job. */
    method TryLease(id: JobId, lease: LeaseId, now: Time, expires: Time) returns (r: Option<LeasedJob>)
      requires Valid()
      modifies this
      ensures Valid() && Model() == LeaseOne(old(Model()), id, lease, now, expires)
      ensures r == if Grantable(old(Model()), id, now)
        then Some(LeasedJob(lease, expires, Grant(old(rows[id].job), lease, now, expires))) else None
    {
      if id !in rows || !Leaseable(rows[id].job, now) {
        return None;
      }
      var current := rows[id].job;
      assert Indexed(id, rows[id]);
      if current.attempt >= current.maxAttempts {
        var _ := WriteJob(Exhaust(current, now), Exhausted(now));
        return None;
      }
      var job := Grant(current, lease, now, expires);
      var _ := WriteJob(job, Granted(lease, now, expires));
      return Some(LeasedJob(lease, expires, job));
    }

    ghost method IssueLease(lease: LeaseId)
      requires Valid()
      modifies this`issued
      ensures Valid() && Model() == Issue(old(Model()), lease)
    {
      issued := issued + {lease};
    }

    method LeaseJobById(id: JobId, lease: LeaseId, leaseMs: int, now: Time)
      returns (r: Result<Option<LeasedJob>, StoreError>)
      requires Valid()
      modifies this
      ensures Valid() && Model() == Apply(old(Model()), LeaseById(id, lease, leaseMs, now))
      ensures r.Err? <==> leaseMs < 1
      ensures r.Ok? ==> r.value == if Grantable(old(Model()), id, now)
        then Some(LeasedJob(lease, now + leaseMs, Grant(old(rows[id].job), lease, now, now + leaseMs))) else None
    {
      if leaseMs < 1 {
        return Err(InvalidLeaseMs);
      }
      IssueLease(lease);
      var leased := TryLease(id, lease, now, now + leaseMs);
      return Ok(leased);
    }

    /** Leases the scanned jobs that are still due; the scan happened before the transaction began. */
    method LeaseJobs(scan: seq<JobId>, lease: LeaseId, leaseMs: int, now: Time)
      returns (r: Result<seq<LeasedJob>, StoreError>)
      requires Valid()
      modifies this
      ensures Valid() && Model() == Apply(old(Model()), LeaseMany(scan, lease, leaseMs, now))
      ensures r.Err? <==> leaseMs < 1
      ensures r.Ok? ==>
        var jobs := LeasedJobs(Issue(old(Model()), lease), scan, lease, now, now + leaseMs);
        && |r.value| == |jobs|
        && forall k :: 0 <= k < |jobs| ==> r.value[k] == LeasedJob(lease, now + leaseMs, jobs[k])
    {
      if leaseMs < 1 {
        return Err(InvalidLeaseMs);
      }
      IssueLease(lease);
      ghost var start := Model();
      var leased: seq<LeasedJob> := [];
      for i := 0 to |scan|
        invariant Valid() && Model() == LeaseScan(start, scan[..i], lease, now, now + leaseMs)
        invariant |leased| == |LeasedJobs(start, scan[..i], lease, now, now + leaseMs)|
        invariant forall k :: 0 <= k < |leased| ==>
          leased[k] == LeasedJob(lease, now + leaseMs, LeasedJobs(start, scan[..i], lease, now, now + leaseMs)[k])
      {
        assert scan[..i + 1][..i] == scan[..i];
        assert scan[i] in rows ==> Indexed(scan[i], rows[scan[i]]);
        var one := TryLease(scan[i], lease, now, now + leaseMs);
        if one.Some? {
          leased := leased + [one.value];
        }
      }
      assert scan[..|scan|] == scan;
      return Ok(leased);
    }

    /** Sweeps expired leases and exhausted jobs, at most `limit` of those scanned. */
    method ReclaimExpired(scan: seq<JobId>, limit: int, now: Time)
      returns (r: Result<(nat, nat), StoreError>)
      requires Valid()
      modifies this
      ensures Valid() && Model() == Apply(old(Model()), SweepExpired(scan, limit, now))
      ensures r.Err? <==> limit < 1
      ensures r.Ok? ==>
        && r.value.0 == SweepScan(old(Model()), scan, limit, now).reclaimed
        && r.value.1 == SweepScan(old(Model()), scan, limit, now).dead
    {
      if limit < 1 {
        return Err(InvalidLimit);
      }
      ghost var start := Model();
      var reclaimed, dead, processed := 0, 0, 0;
      for i := 0 to |scan|
        invariant Valid() && processed == reclaimed + dead
        invariant Sweep(Model(), reclaimed, dead) == SweepScan(start, scan[..i], limit, now)
      {
        assert scan[..i + 1][..i] == scan[..i];
        if processed < limit && scan[i] in rows {
          var current := rows[scan[i]].job;
          assert Indexed(scan[i], rows[scan[i]]);
          var expiredLease := ExpiredBy(current, now);
          var exhaustedPending := current.state.Pending? && current.attempt >= current.maxAttempts;
          if expiredLease || exhaustedPending {
            processed := processed + 1;
            if current.attempt >= current.maxAttempts {
              var _ := WriteJob(Exhaust(current, now), Exhausted(now));
              dead := dead + 1;
            } else if expiredLease {
              var _ := WriteJob(Reclaim(current, now), Expired(now));
              reclaimed := reclaimed + 1;
            }
          }
        }
      }
      assert scan[..|scan|] == scan;
      return Ok((reclaimed, dead));
    }

    method CompleteLeased(id: JobId, lease: LeaseId, output: Option<int>, effect: Option<Effect>, now: Time)
      returns (done: bool)
      requires Valid()
      modifies this
      ensures Valid() && Model() == Apply(old(Model()), CompleteJob(id, lease, output, effect, now))
      ensures done == HeldIn(old(Model()), id, lease)
    {
      if id !in rows || !rows[id].job.state.Leased? || rows[id].job.leaseId != Some(lease) {
        return false;
      }
      assert Indexed(id, rows[id]);
      done := WriteJob(Complete(rows[id].job, output, effect, now), Completed(lease));
    }

    method FailLeased(id: JobId, lease: LeaseId, code: Failure, block: bool, seed: nat, now: Time)
      returns (done: bool)
      requires Valid()
      modifies this
      ensures Valid() && Model() == Apply(old(Model()), FailJob(id, lease, code, block, seed, now))
      ensures done == HeldIn(old(Model()), id, lease)
    {
      if id !in rows || !rows[id].job.state.Leased? || rows[id].job.leaseId != Some(lease) {
        return false;
      }
      assert Indexed(id, rows[id]);
      done := WriteJob(Fail(rows[id].job, code, block, seed, now), Failed(lease));
    }
  }
}
