/**
 * What is left of the guarantees of JobHistory.dfy when calls read and write in two halves: exactly when a job
 * completes twice, and exactly when it can be leased again before its lease runs out.
 */
module RaceGuarantees {
  import opened Wrappers
  import opened Jobs
  import opened JobRaces

  lemma PrefixPrefix(steps: seq<Step>, n: nat, k: nat)
    requires k <= n <= |steps|
    ensures steps[..n][..k] == steps[..k]
  {
  }

  /** This step writes the record of this job. */
  predicate WritesJob(w: World, step: Step, id: JobId) { Writes(w, step) && IntentAt(w, step).record.id == id }

  // ----- completing a job -----

  /** This step tells its caller that it completed the job. */
  predicate Completes(w: World, step: Step, id: JobId) {
    match step
    case Whole(op) => op.CompleteJob? && op.id == id && HeldIn(Table(w), id, op.lease)
    case Read(_, _) => false
    case Write(_) => WritesJob(w, step, id) && IntentAt(w, step).op.CompleteJob?
  }

  /** This step writes over a job that has succeeded. */
  predicate WritesOverSuccess(w: World, step: Step, id: JobId) {
    WritesJob(w, step, id) && id in w.jobs && w.jobs[id].state.Succeeded?
  }

  predicate CompletesAt(steps: seq<Step>, k: nat, id: JobId)
    requires k < |steps|
  {
    Completes(Reached(steps[..k]), steps[k], id)
  }

  predicate WritesOverSuccessAt(steps: seq<Step>, k: nat, id: JobId)
    requires k < |steps|
  {
    WritesOverSuccess(Reached(steps[..k]), steps[k], id)
  }

  /** How many calls were told that they completed this job. */
  function Completions(steps: seq<Step>, id: JobId): nat {
    if steps == [] then 0
    else
      var n := |steps| - 1;
      Completions(steps[..n], id) + if CompletesAt(steps, n, id) then 1 else 0
  }

  predicate HasSucceeded(w: World, id: JobId) { id in w.jobs && w.jobs[id].state.Succeeded? }

  predicate Spoilt(steps: seq<Step>, id: JobId) { exists k: nat :: k < |steps| && WritesOverSuccessAt(steps, k, id) }

  /** A completion at or after a write over the succeeded job. */
  predicate CompletesAgain(steps: seq<Step>, id: JobId) {
    exists k: nat, m: nat :: k <= m < |steps| && WritesOverSuccessAt(steps, k, id) && CompletesAt(steps, m, id)
  }

  lemma SpoiltStep(steps: seq<Step>, id: JobId)
    requires steps != []
    ensures var n := |steps| - 1;
      Spoilt(steps, id) <==> Spoilt(steps[..n], id) || WritesOverSuccessAt(steps, n, id)
  {
    var n := |steps| - 1;
    forall k: nat | k < n ensures WritesOverSuccessAt(steps[..n], k, id) <==> WritesOverSuccessAt(steps, k, id) {
      PrefixPrefix(steps, n, k);
    }
    if Spoilt(steps[..n], id) {
      var k: nat :| k < n && WritesOverSuccessAt(steps[..n], k, id);
      assert WritesOverSuccessAt(steps, k, id);
    }
  }

  lemma CompletesAgainStep(steps: seq<Step>, id: JobId)
    requires steps != []
    ensures var n := |steps| - 1;
      CompletesAgain(steps, id) <==> CompletesAgain(steps[..n], id) || (CompletesAt(steps, n, id) && Spoilt(steps, id))
  {
    var n := |steps| - 1;
    forall k: nat | k < n
      ensures WritesOverSuccessAt(steps[..n], k, id) <==> WritesOverSuccessAt(steps, k, id)
      ensures CompletesAt(steps[..n], k, id) <==> CompletesAt(steps, k, id)
    {
      PrefixPrefix(steps, n, k);
    }
    if CompletesAgain(steps[..n], id) {
      var k: nat, m: nat :| k <= m < n && WritesOverSuccessAt(steps[..n], k, id) && CompletesAt(steps[..n], m, id);
      assert WritesOverSuccessAt(steps, k, id) && CompletesAt(steps, m, id);
    }
  }

  /** Success comes from completion, and only a write over it ends it. */
  lemma SuccessStep(w: World, step: Step, id: JobId)
    requires InOrder(w)
    ensures Completes(w, step, id) ==> HasSucceeded(Move(w, step), id)
    ensures HasSucceeded(Move(w, step), id) ==> HasSucceeded(w, id) || Completes(w, step, id)
    ensures HasSucceeded(w, id) && !WritesOverSuccess(w, step, id) ==>
      HasSucceeded(Move(w, step), id) && !Completes(w, step, id)
  {
    MoveAt(w, step, id);
    if Writes(w, step) {
      assert Prepared(IntentAt(w, step));
    }
  }

  lemma {:induction false} CompletionsSoFar(steps: seq<Step>, id: JobId)
    ensures HasSucceeded(Reached(steps), id) ==> Completions(steps, id) >= 1
    ensures Completions(steps, id) >= 1 ==> HasSucceeded(Reached(steps), id) || Spoilt(steps, id)
    ensures Spoilt(steps, id) ==> Completions(steps, id) >= 1
    ensures Completions(steps, id) >= 2 <==> CompletesAgain(steps, id)
  {
    if steps != [] {
      var n := |steps| - 1;
      CompletionsSoFar(steps[..n], id);
      AlwaysInOrder(steps[..n]);
      SuccessStep(Reached(steps[..n]), steps[n], id);
      SpoiltStep(steps, id);
      CompletesAgainStep(steps, id);
    }
  }

  /**
   * In any run, a job completes more than once exactly when a call completes it at, or after, a write over the
   * record of the succeeded job.
   */
  lemma CompletesTwiceIff(steps: seq<Step>, id: JobId)
    ensures Completions(steps, id) >= 2 <==>
      exists k: nat, m: nat :: k <= m < |steps| && WritesOverSuccessAt(steps, k, id) && CompletesAt(steps, m, id)
  {
    CompletionsSoFar(steps, id);
  }

  // ----- writes that override nothing -----

  predicate OverridesJobAt(steps: seq<Step>, k: nat, id: JobId)
    requires k < |steps|
  {
    OverridesAt(steps, k) && WritesJob(Reached(steps[..k]), steps[k], id)
  }

  /** A write over a succeeded job always overrides it. */
  lemma SuccessIsOverridden(steps: seq<Step>, k: nat, id: JobId)
    requires k < |steps| && WritesOverSuccessAt(steps, k, id)
    ensures OverridesJobAt(steps, k, id)
  {
    AlwaysInOrder(steps[..k]);
    assert Prepared(IntentAt(Reached(steps[..k]), steps[k]));
  }

  /** While no write overrides the job, it completes at most once. */
  lemma UndisturbedCompletesOnce(steps: seq<Step>, id: JobId)
    requires forall k: nat :: k < |steps| ==> !OverridesJobAt(steps, k, id)
    ensures Completions(steps, id) <= 1
  {
    CompletesTwiceIff(steps, id);
    if k: nat :| k < |steps| && WritesOverSuccessAt(steps, k, id) {
      SuccessIsOverridden(steps, k, id);
    }
  }

  // ----- leasing a job again -----

  /** This step leases the job. */
  predicate LeasesJob(w: World, step: Step, id: JobId) {
    step.Whole? && Leasing(step.op, id) && Grantable(Table(w), id, step.op.now)
  }

  predicate LeasesAt(steps: seq<Step>, k: nat, id: JobId)
    requires k < |steps|
  {
    LeasesJob(Reached(steps[..k]), steps[k], id)
  }

  /** The holder of this lease fails the job at this step. */
  predicate FailsUnder(w: World, step: Step, id: JobId, lease: LeaseId) {
    match step
    case Whole(op) => op.FailJob? && op.id == id && op.lease == lease && HeldIn(Table(w), id, lease)
    case Read(_, _) => false
    case Write(_) =>
      WritesJob(w, step, id) && IntentAt(w, step).op.FailJob? && IntentAt(w, step).op.lease == lease
  }

  predicate FailsUnderAt(steps: seq<Step>, k: nat, id: JobId, lease: LeaseId)
    requires k < |steps|
  {
    FailsUnder(Reached(steps[..k]), steps[k], id, lease)
  }

  function LeaseFrom(step: Step): LeaseId
    requires step.Whole? && (step.op.LeaseById? || step.op.LeaseMany?)
  {
    step.op.lease
  }

  function ExpiryFrom(step: Step): Time
    requires step.Whole? && (step.op.LeaseById? || step.op.LeaseMany?)
  {
    step.op.now + step.op.leaseMs
  }

  /** The lease granted at `p` is the last one of the job, and its holder has not failed it. */
  predicate LastLease(steps: seq<Step>, p: nat, id: JobId) {
    && p < |steps| && LeasesAt(steps, p, id)
    && forall k: nat :: p < k < |steps| ==> !LeasesAt(steps, k, id) && !FailsUnderAt(steps, k, id, LeaseFrom(steps[p]))
  }

  /** Pending with attempts left. */
  predicate Open(j: Job) { j.state.Pending? && !Spent(j) }

  /** It will not be leased again. */
  predicate Closed(j: Job) { Terminal(j.state) || (j.state.Pending? && Spent(j)) }

  /** What an undisturbed lease makes of its job until the next one. */
  predicate Waiting(j: Job, lease: LeaseId, expires: Time) {
    || (j.state.Leased? && j.leaseId == Some(lease) && j.leaseExpiresAt == Some(expires))
    || (j.state.Pending? && j.availableAt >= expires)
    || Closed(j)
  }

  /** What a write makes of the job until the next lease or the next write. */
  predicate LeftAs(j: Job, record: Job) { if Open(record) then j == record else Closed(j) }

  function RecordAt(steps: seq<Step>, k: nat): Job
    requires k < |steps| && OverridesAt(steps, k)
  {
    IntentAt(Reached(steps[..k]), steps[k]).record
  }

  lemma LeaseHolds(w: World, step: Step, id: JobId)
    requires InOrder(w) && LeasesJob(w, step, id)
    ensures RowOf(Move(w, step).jobs, id) == Some(Grant(w.jobs[id], LeaseFrom(step), step.op.now, ExpiryFrom(step)))
  {
    var op := step.op;
    if op.LeaseMany? {
      LeaseScanAt(Issue(Table(w), op.lease), op.scan, op.lease, op.now, op.now + op.leaseMs, id);
    }
  }

  /** A step that neither leases nor overrides the job, nor fails it under its lease, keeps how it stands. */
  lemma QuietStep(w: World, step: Step, id: JobId, lease: LeaseId, expires: Time)
    requires InOrder(w) && id in w.jobs
    requires !LeasesJob(w, step, id) && !FailsUnder(w, step, id, lease)
    requires !(Overrides(w, step) && WritesJob(w, step, id))
    ensures id in Move(w, step).jobs
    ensures Waiting(w.jobs[id], lease, expires) ==> Waiting(Move(w, step).jobs[id], lease, expires)
    ensures Open(w.jobs[id]) ==> Move(w, step).jobs[id] == w.jobs[id]
    ensures Closed(w.jobs[id]) ==> Closed(Move(w, step).jobs[id])
  {
    MoveAt(w, step, id);
    if Writes(w, step) {
      assert Prepared(IntentAt(w, step));
    }
  }

  /** The record in the table after a write. */
  lemma OverrideStep(w: World, step: Step, id: JobId)
    requires InOrder(w) && WritesJob(w, step, id)
    ensures id in Move(w, step).jobs && LeftAs(Move(w, step).jobs[id], IntentAt(w, step).record)
  {
    assert Prepared(IntentAt(w, step));
  }

  /** No write after step `k` overrides the job. */
  predicate NoOverrideAfter(steps: seq<Step>, k: nat, id: JobId) {
    forall m: nat :: k < m < |steps| ==> !OverridesJobAt(steps, m, id)
  }

  /** The job stands as its last lease left it, unless a write overrode it since. */
  predicate StandsLeased(steps: seq<Step>, p: nat, id: JobId, lease: LeaseId, expires: Time) {
    var jobs := Reached(steps).jobs;
    id in jobs && (NoOverrideAfter(steps, p, id) ==> Waiting(jobs[id], lease, expires))
  }

  /** The job stands as the write at step `k` left it, if that is the last one that overrode it. */
  predicate StandsWritten(steps: seq<Step>, k: nat, id: JobId)
    requires k < |steps|
  {
    var jobs := Reached(steps).jobs;
    OverridesJobAt(steps, k, id) && NoOverrideAfter(steps, k, id) ==>
      id in jobs && LeftAs(jobs[id], RecordAt(steps, k))
  }

  ghost predicate Stands(steps: seq<Step>, p: nat, id: JobId, lease: LeaseId, expires: Time) {
    && StandsLeased(steps, p, id, lease, expires)
    && forall k: nat :: p < k < |steps| ==> StandsWritten(steps, k, id)
  }

  lemma LastLeasePrefix(steps: seq<Step>, p: nat, id: JobId)
    requires LastLease(steps, p, id) && p < |steps| - 1
    ensures LastLease(steps[..|steps| - 1], p, id)
  {
    var n := |steps| - 1;
    PrefixPrefix(steps, n, p);
    forall k: nat | p < k < n
      ensures !LeasesAt(steps[..n], k, id) && !FailsUnderAt(steps[..n], k, id, LeaseFrom(steps[p]))
    {
      PrefixPrefix(steps, n, k);
      assert !LeasesAt(steps, k, id);
    }
  }

  lemma NoOverridePrefix(steps: seq<Step>, k: nat, id: JobId)
    requires k < |steps| - 1
    ensures var n := |steps| - 1;
      NoOverrideAfter(steps, k, id) <==> NoOverrideAfter(steps[..n], k, id) && !OverridesJobAt(steps, n, id)
    ensures OverridesJobAt(steps[..|steps| - 1], k, id) <==> OverridesJobAt(steps, k, id)
    ensures OverridesJobAt(steps, k, id) ==> RecordAt(steps[..|steps| - 1], k) == RecordAt(steps, k)
  {
    var n := |steps| - 1;
    forall m: nat | k <= m < n ensures OverridesJobAt(steps[..n], m, id) <==> OverridesJobAt(steps, m, id) {
      PrefixPrefix(steps, n, m);
    }
    PrefixPrefix(steps, n, k);
    if NoOverrideAfter(steps, k, id) {
      assert !OverridesJobAt(steps, n, id);
    }
  }

  lemma StepStandsLeased(steps: seq<Step>, p: nat, id: JobId, lease: LeaseId, expires: Time)
    requires p < |steps| - 1 && StandsLeased(steps[..|steps| - 1], p, id, lease, expires)
    requires !LeasesAt(steps, |steps| - 1, id) && !FailsUnderAt(steps, |steps| - 1, id, lease)
    ensures StandsLeased(steps, p, id, lease, expires)
  {
    var n := |steps| - 1;
    AlwaysInOrder(steps[..n]);
    NoOverridePrefix(steps, p, id);
    if OverridesJobAt(steps, n, id) {
      OverrideStep(Reached(steps[..n]), steps[n], id);
    } else {
      QuietStep(Reached(steps[..n]), steps[n], id, lease, expires);
    }
  }

  lemma StepStandsWritten(steps: seq<Step>, k: nat, id: JobId, lease: LeaseId)
    requires k < |steps| && (k < |steps| - 1 ==> StandsWritten(steps[..|steps| - 1], k, id))
    requires !LeasesAt(steps, |steps| - 1, id) && !FailsUnderAt(steps, |steps| - 1, id, lease)
    ensures StandsWritten(steps, k, id)
  {
    var n := |steps| - 1;
    AlwaysInOrder(steps[..n]);
    if OverridesJobAt(steps, k, id) && NoOverrideAfter(steps, k, id) {
      if k == n {
        OverrideStep(Reached(steps[..n]), steps[n], id);
      } else {
        NoOverridePrefix(steps, k, id);
        QuietStep(Reached(steps[..n]), steps[n], id, lease, 0);
      }
    }
  }

  lemma {:induction false} JobStands(steps: seq<Step>, p: nat, id: JobId)
    requires LastLease(steps, p, id)
    ensures Stands(steps, p, id, LeaseFrom(steps[p]), ExpiryFrom(steps[p]))
  {
    var n, lease := |steps| - 1, LeaseFrom(steps[p]);
    if p == n {
      AlwaysInOrder(steps[..n]);
      LeaseHolds(Reached(steps[..n]), steps[n], id);
    } else {
      LastLeasePrefix(steps, p, id);
      JobStands(steps[..n], p, id);
      assert !LeasesAt(steps, n, id);
      StepStandsLeased(steps, p, id, lease, ExpiryFrom(steps[p]));
      forall k: nat | p < k <= n ensures StandsWritten(steps, k, id) {
        StepStandsWritten(steps, k, id, lease);
      }
    }
  }

  lemma {:induction false} LastOverride(steps: seq<Step>, p: nat, id: JobId) returns (k: nat)
    requires !NoOverrideAfter(steps, p, id)
    ensures p < k < |steps| && OverridesJobAt(steps, k, id) && NoOverrideAfter(steps, k, id)
    decreases |steps| - p
  {
    k :| p < k < |steps| && OverridesJobAt(steps, k, id);
    if !NoOverrideAfter(steps, k, id) {
      k := LastOverride(steps, k, id);
    }
  }

  /** This write leaves the job open to a lease before the time given. */
  predicate Opens(steps: seq<Step>, k: nat, id: JobId, before: Time)
    requires k < |steps|
  {
    OverridesJobAt(steps, k, id) && Open(RecordAt(steps, k)) && RecordAt(steps, k).availableAt < before
  }

  /** Some lease call before this time would be granted the job. */
  ghost predicate Leasable(w: World, id: JobId, before: Time) {
    exists now: Time :: now < before && Grantable(Table(w), id, now)
  }

  /** The last write that overrode the job after step `p` left it open to a lease before the time given. */
  predicate LeftOpen(steps: seq<Step>, p: nat, id: JobId, before: Time) {
    exists k: nat :: p < k < |steps| && Opens(steps, k, id, before) && NoOverrideAfter(steps, k, id)
  }

  lemma OpenIsLeasable(w: World, id: JobId, before: Time)
    requires id in w.jobs && Open(w.jobs[id]) && w.jobs[id].availableAt < before
    ensures Leasable(w, id, before)
  {
    assert Grantable(Table(w), id, w.jobs[id].availableAt);
  }

  lemma LeasableIsOpen(steps: seq<Step>, p: nat, id: JobId)
    requires LastLease(steps, p, id) && Leasable(Reached(steps), id, ExpiryFrom(steps[p]))
    ensures LeftOpen(steps, p, id, ExpiryFrom(steps[p]))
  {
    JobStands(steps, p, id);
    var k := LastOverride(steps, p, id);
    assert StandsWritten(steps, k, id);
    assert Opens(steps, k, id, ExpiryFrom(steps[p]));
  }

  /**
   * In any run, a job whose holder has not failed it can be leased again before its last lease runs out exactly
   * when the last write that overrode the job since then left it pending, with attempts left, and available
   * before that time.
   */
  lemma LeasedEarlyIff(steps: seq<Step>, p: nat, id: JobId)
    requires LastLease(steps, p, id)
    ensures Leasable(Reached(steps), id, ExpiryFrom(steps[p])) <==> LeftOpen(steps, p, id, ExpiryFrom(steps[p]))
  {
    var expires := ExpiryFrom(steps[p]);
    if Leasable(Reached(steps), id, expires) {
      LeasableIsOpen(steps, p, id);
    }
    if LeftOpen(steps, p, id, expires) {
      JobStands(steps, p, id);
      var k: nat :| p < k < |steps| && Opens(steps, k, id, expires) && NoOverrideAfter(steps, k, id);
      assert StandsWritten(steps, k, id);
      OpenIsLeasable(Reached(steps), id, expires);
    }
  }

  /** The next lease waits for the one before it, unless its holder failed the job or a write overrode it. */
  lemma UndisturbedLeaseWaits(steps: seq<Step>, p: nat, q: nat, id: JobId)
    requires q < |steps| && LastLease(steps[..q], p, id) && LeasesAt(steps, q, id)
    requires NoOverrideAfter(steps[..q], p, id)
    ensures steps[q].op.now >= ExpiryFrom(steps[p])
  {
    JobStands(steps[..q], p, id);
  }
}
