/**
 * Calls that read a job and write it back without a transaction: enqueue, complete and fail. When other calls
 * come between the two halves, and what that does to the records, the answers and the guarantees of
 * JobHistory.dfy.
 */
module JobRaces {
  import opened Wrappers
  import opened Jobs
  import opened JobHistory

  type ClientId = int

  /** What a call tells its caller. */
  datatype Answer =
    | Refused
    | Stored(job: Job)
    | Lease(granted: Option<Job>)
    | Leases(grants: seq<Job>)
    | Swept(reclaimed: nat, dead: nat)
    | Done(ok: bool)

  /** What a whole call answers. */
  function AnswerOf(s: Store, op: Op): Answer {
    match op
    case Enqueue(spec, now) =>
      if spec.id in s.jobs then Stored(s.jobs[spec.id])
      else if Writable(NewJob(spec, now)) then Stored(NewJob(spec, now))
      else Refused
    case LeaseById(id, lease, ms, now) =>
      if ms < 1 then Refused
      else Lease(if Grantable(s, id, now) then Some(Grant(s.jobs[id], lease, now, now + ms)) else None)
    case LeaseMany(scan, lease, ms, now) =>
      if ms < 1 then Refused else Leases(LeasedJobs(s, scan, lease, now, now + ms))
    case SweepExpired(scan, limit, now) =>
      if limit < 1 then Refused
      else
        var w := SweepScan(s, scan, limit, now);
        Swept(w.reclaimed, w.dead)
    case CompleteJob(id, lease, _, _, _) => Done(HeldIn(s, id, lease))
    case FailJob(id, lease, _, _, _, _) => Done(HeldIn(s, id, lease))
  }

  /** The answers of whole calls, one after the other. */
  function WholeAnswers(ops: seq<Op>): seq<Answer> {
    if ops == [] then []
    else WholeAnswers(ops[..|ops| - 1]) + [AnswerOf(Run(EMPTY, ops[..|ops| - 1]), ops[|ops| - 1])]
  }

  // ----- calls in two halves -----

  /** What a call has decided to write, and what it read before. */
  datatype Intent = Intent(op: Op, read: Option<Job>, record: Job)

  predicate Splits(op: Op) { op.Enqueue? || op.CompleteJob? || op.FailJob? }

  function JobOf(op: Op): JobId
    requires Splits(op)
  {
    if op.Enqueue? then op.spec.id else op.id
  }

  /** The first half of a call: read the job, and either answer at once or prepare a write. */
  function Prepare(s: Store, op: Op): Option<Intent> {
    match op
    case Enqueue(spec, now) =>
      if spec.id in s.jobs || !Writable(NewJob(spec, now)) then None else Some(Intent(op, None, NewJob(spec, now)))
    case CompleteJob(id, lease, output, effect, now) =>
      if !HeldIn(s, id, lease) then None
      else Some(Intent(op, Some(s.jobs[id]), Complete(s.jobs[id], output, effect, now)))
    case FailJob(id, lease, code, block, seed, now) =>
      if !HeldIn(s, id, lease) then None
      else Some(Intent(op, Some(s.jobs[id]), Fail(s.jobs[id], code, block, seed, now)))
    case _ => None
  }

  /** A transaction, or one half of a call by a client that makes one call at a time. */
  datatype Step = Whole(op: Op) | Read(client: ClientId, op: Op) | Write(client: ClientId)

  /** The records in the table, the lease ids issued, and the writes that clients have in mind. */
  datatype World = World(jobs: map<JobId, Job>, issued: set<LeaseId>, intents: map<ClientId, Intent>)

  /** The store without histories: no call looks at them. */
  function Table(w: World): Store { Store(w.jobs, map[], w.issued) }

  function Move(w: World, step: Step): World {
    match step
    case Whole(op) =>
      var s := Apply(Table(w), op);
      World(s.jobs, s.issued, w.intents)
    case Read(c, op) =>
      var intent := Prepare(Table(w), op);
      if c in w.intents || intent.None? then w else w.(intents := w.intents[c := intent.value])
    case Write(c) =>
      if c !in w.intents then w
      else
        var record := w.intents[c].record;
        w.(jobs := w.jobs[record.id := record], intents := w.intents - {c})
  }

  const START := World(map[], {}, map[])

  function Reached(steps: seq<Step>): World {
    if steps == [] then START else Move(Reached(steps[..|steps| - 1]), steps[|steps| - 1])
  }

  predicate Writes(w: World, step: Step) { step.Write? && step.client in w.intents }

  function IntentAt(w: World, step: Step): Intent
    requires Writes(w, step)
  {
    w.intents[step.client]
  }

  /** This read ends its call: there is nothing to write. */
  predicate EndsAtRead(w: World, step: Step) {
    step.Read? && step.client !in w.intents && Splits(step.op) && Prepare(Table(w), step.op).None?
  }

  /** The call that takes effect at this step, if any: a split one does at its write, or at a read that ends it. */
  function CallAt(w: World, step: Step): seq<Op> {
    if step.Whole? || EndsAtRead(w, step) then [step.op] else if Writes(w, step) then [IntentAt(w, step).op] else []
  }

  /** What its caller is told. */
  function AnswerAt(w: World, step: Step): seq<Answer> {
    if step.Whole? || EndsAtRead(w, step) then [AnswerOf(Table(w), step.op)]
    else if !Writes(w, step) then []
    else if IntentAt(w, step).op.Enqueue? then [Stored(IntentAt(w, step).record)]
    else [Done(true)]
  }

  /** The calls of a run in the order they took effect. */
  function CallsOf(steps: seq<Step>): seq<Op> {
    if steps == [] then []
    else CallsOf(steps[..|steps| - 1]) + CallAt(Reached(steps[..|steps| - 1]), steps[|steps| - 1])
  }

  function AnswersOf(steps: seq<Step>): seq<Answer> {
    if steps == [] then []
    else AnswersOf(steps[..|steps| - 1]) + AnswerAt(Reached(steps[..|steps| - 1]), steps[|steps| - 1])
  }

  predicate FreshSteps(steps: seq<Step>) {
    steps == [] || (
      var last := steps[|steps| - 1];
      && FreshSteps(steps[..|steps| - 1])
      && (last.Whole? ==> Fresh(Table(Reached(steps[..|steps| - 1])), last.op)))
  }

  function RowOf(jobs: map<JobId, Job>, id: JobId): Option<Job> { if id in jobs then Some(jobs[id]) else None }

  /** The job is no longer what the call read. */
  predicate Overtaken(w: World, step: Step) {
    Writes(w, step) && RowOf(w.jobs, IntentAt(w, step).record.id) != IntentAt(w, step).read
  }

  /** An overtaken write that is not an enqueue that finds its own record stored. */
  predicate Overrides(w: World, step: Step) {
    && Overtaken(w, step)
    && !(IntentAt(w, step).op.Enqueue?
         && RowOf(w.jobs, IntentAt(w, step).record.id) == Some(IntentAt(w, step).record))
  }

  predicate OverridesAt(steps: seq<Step>, k: nat)
    requires k < |steps|
  {
    Overrides(Reached(steps[..k]), steps[k])
  }

  predicate NeverOverridden(steps: seq<Step>) { forall k: nat :: k < |steps| ==> !OverridesAt(steps, k) }

  // ----- calls look at records only -----

  lemma {:induction false} LeaseScanRows(
    s: Store, t: Store, scan: seq<JobId>, lease: LeaseId, now: Time, expires: Time)
    requires s.jobs == t.jobs
    ensures LeaseScan(s, scan, lease, now, expires).jobs == LeaseScan(t, scan, lease, now, expires).jobs
    ensures LeaseScan(s, scan, lease, now, expires).issued == s.issued
    ensures LeaseScan(t, scan, lease, now, expires).issued == t.issued
    ensures LeasedJobs(s, scan, lease, now, expires) == LeasedJobs(t, scan, lease, now, expires)
  {
    if scan != [] {
      LeaseScanRows(s, t, scan[..|scan| - 1], lease, now, expires);
    }
  }

  lemma {:induction false} SweepScanRows(s: Store, t: Store, scan: seq<JobId>, limit: int, now: Time)
    requires s.jobs == t.jobs
    ensures var w, v := SweepScan(s, scan, limit, now), SweepScan(t, scan, limit, now);
      && w.store.jobs == v.store.jobs && w.reclaimed == v.reclaimed && w.dead == v.dead
      && w.store.issued == s.issued && v.store.issued == t.issued
  {
    if scan != [] {
      SweepScanRows(s, t, scan[..|scan| - 1], limit, now);
    }
  }

  /** A whole call does and answers the same on equal records, whatever their histories. */
  lemma ApplyRows(s: Store, t: Store, op: Op)
    requires s.jobs == t.jobs && s.issued == t.issued
    ensures Apply(s, op).jobs == Apply(t, op).jobs && Apply(s, op).issued == Apply(t, op).issued
    ensures AnswerOf(s, op) == AnswerOf(t, op)
  {
    match op
    case LeaseMany(scan, lease, ms, now) =>
      LeaseScanRows(Issue(s, lease), Issue(t, lease), scan, lease, now, now + ms);
      LeaseScanRows(s, t, scan, lease, now, now + ms);
    case SweepExpired(scan, limit, now) => SweepScanRows(s, t, scan, limit, now);
    case _ =>
  }

  // ----- what a whole call does to one record -----

  predicate Keyed(jobs: map<JobId, Job>) { forall id :: id in jobs ==> jobs[id].id == id }

  /** This call tries to lease this job. */
  predicate Leasing(op: Op, id: JobId) {
    || (op.LeaseById? && op.leaseMs >= 1 && op.id == id)
    || (op.LeaseMany? && op.leaseMs >= 1 && id in op.scan)
  }

  /** All a whole call can do to the record of a job. */
  predicate Becomes(before: Option<Job>, after: Option<Job>, op: Op, id: JobId) {
    || after == before
    || (op.Enqueue? && op.spec.id == id && before.None? && after == Some(NewJob(op.spec, op.now)))
    || (before.Some? && after.Some? && Changes(before.value, after.value, op, id))
  }

  predicate Changes(j: Job, k: Job, op: Op, id: JobId) {
    match op
    case Enqueue(_, _) => false
    case LeaseById(_, lease, ms, now) =>
      && Leasing(op, id) && Leaseable(j, now)
      && k == if Spent(j) then Exhaust(j, now) else Grant(j, lease, now, now + ms)
    case LeaseMany(_, lease, ms, now) =>
      && Leasing(op, id) && Leaseable(j, now)
      && k == if Spent(j) then Exhaust(j, now) else Grant(j, lease, now, now + ms)
    case SweepExpired(_, _, now) =>
      Reclaimable(j, now) && k == if Spent(j) then Exhaust(j, now) else Reclaim(j, now)
    case CompleteJob(job, lease, output, effect, now) =>
      job == id && Holds(j, lease) && k == Complete(j, output, effect, now)
    case FailJob(job, lease, code, block, seed, now) =>
      job == id && Holds(j, lease) && k == Fail(j, code, block, seed, now)
  }

  lemma {:induction false} LeaseScanAt(
    s: Store, scan: seq<JobId>, lease: LeaseId, now: Time, expires: Time, id: JobId)
    requires Keyed(s.jobs) && now < expires
    ensures Keyed(LeaseScan(s, scan, lease, now, expires).jobs)
    ensures RowOf(LeaseScan(s, scan, lease, now, expires).jobs, id)
      == RowOf((if id in scan then LeaseOne(s, id, lease, now, expires) else s).jobs, id)
  {
    if scan != [] {
      var n := |scan| - 1;
      LeaseScanAt(s, scan[..n], lease, now, expires, id);
      assert id in scan <==> id in scan[..n] || id == scan[n];
    }
  }

  lemma {:induction false} SweepScanAt(s: Store, scan: seq<JobId>, limit: int, now: Time, id: JobId)
    requires Keyed(s.jobs)
    ensures Keyed(SweepScan(s, scan, limit, now).store.jobs)
    ensures RowOf(SweepScan(s, scan, limit, now).store.jobs, id)
      in {RowOf(s.jobs, id), RowOf(ReclaimOne(s, id, now).jobs, id)}
  {
    if scan != [] {
      SweepScanAt(s, scan[..|scan| - 1], limit, now, id);
    }
  }

  lemma ApplyBecomes(s: Store, op: Op, id: JobId)
    requires Keyed(s.jobs)
    ensures Keyed(Apply(s, op).jobs) && Becomes(RowOf(s.jobs, id), RowOf(Apply(s, op).jobs, id), op, id)
  {
    match op
    case LeaseMany(scan, lease, ms, now) =>
      if ms >= 1 {
        LeaseScanAt(Issue(s, lease), scan, lease, now, now + ms, id);
      }
    case SweepExpired(scan, limit, now) => SweepScanAt(s, scan, limit, now, id);
    case _ =>
  }

  // ----- what is true of every run -----

  /** A prepared write is what its call makes of the job it read. */
  predicate Prepared(i: Intent) {
    && Splits(i.op) && i.record.id == JobOf(i.op)
    && match i.op
       case Enqueue(spec, now) => i.read.None? && i.record == NewJob(spec, now) && Writable(i.record)
       case CompleteJob(_, lease, output, effect, now) =>
         i.read.Some? && Holds(i.read.value, lease) && i.record == Complete(i.read.value, output, effect, now)
       case FailJob(_, lease, code, block, seed, now) =>
         i.read.Some? && Holds(i.read.value, lease) && i.record == Fail(i.read.value, code, block, seed, now)
       case _ => false
  }

  predicate InOrder(w: World) {
    Keyed(w.jobs) && forall c :: c in w.intents ==> Prepared(w.intents[c])
  }

  lemma {:induction false} AlwaysInOrder(steps: seq<Step>)
    ensures InOrder(Reached(steps))
  {
    if steps != [] {
      var w, step := Reached(steps[..|steps| - 1]), steps[|steps| - 1];
      AlwaysInOrder(steps[..|steps| - 1]);
      if step.Whole? {
        ApplyBecomes(Table(w), step.op, 0);
      }
    }
  }

  /** What one step does to the record of a job. */
  lemma MoveAt(w: World, step: Step, id: JobId)
    requires InOrder(w)
    ensures var before, after := RowOf(w.jobs, id), RowOf(Move(w, step).jobs, id);
      && (step.Whole? ==> Becomes(before, after, step.op, id))
      && (Writes(w, step) && IntentAt(w, step).record.id == id ==> after == Some(IntentAt(w, step).record))
      && (!step.Whole? && !(Writes(w, step) && IntentAt(w, step).record.id == id) ==> after == before)
  {
    if step.Whole? {
      ApplyBecomes(Table(w), step.op, id);
    }
  }

  // ----- when the halves look like whole calls -----

  /** A job still held under the lease of this call has not been touched since the call read it. */
  predicate Current(s: Store, i: Intent) {
    i.op.CompleteJob? || i.op.FailJob? ==>
      && i.op.lease in s.issued && i.op.id in s.jobs
      && (HeldIn(s, i.op.id, i.op.lease) ==> i.read == Some(s.jobs[i.op.id]))
  }

  /** The world is one that whole calls have left in this store. */
  ghost predicate LeftBy(w: World, s: Store) {
    && StoreInv(s) && w.jobs == s.jobs && w.issued == s.issued
    && forall c {:trigger w.intents[c]} :: c in w.intents ==> Prepared(w.intents[c]) && Current(s, w.intents[c])
  }

  lemma ApplyIssues(s: Store, op: Op)
    ensures s.issued <= Apply(s, op).issued
  {
    match op
    case LeaseMany(scan, lease, ms, now) =>
      LeaseScanRows(Issue(s, lease), Issue(s, lease), scan, lease, now, now + ms);
    case SweepExpired(scan, limit, now) => SweepScanRows(s, s, scan, limit, now);
    case _ =>
  }

  /** No call takes up a lease again: its job is as it was, or no longer held under it. */
  lemma CurrentStays(s: Store, op: Op, i: Intent)
    requires StoreInv(s) && Fresh(s, op) && Current(s, i)
    ensures Current(Apply(s, op), i)
  {
    if i.op.CompleteJob? || i.op.FailJob? {
      SoundIsKeyed(s);
      ApplyIssues(s, op);
      ApplyBecomes(s, op, i.op.id);
    }
  }

  lemma SoundIsKeyed(s: Store)
    requires StoreInv(s)
    ensures Keyed(s.jobs)
  {
    forall id | id in s.jobs ensures s.jobs[id].id == id {
      assert Sound(s, id);
    }
  }

  lemma PreparedIsCurrent(s: Store, op: Op)
    requires StoreInv(s) && Prepare(s, op).Some?
    ensures Prepared(Prepare(s, op).value) && Current(s, Prepare(s, op).value)
  {
    if JobOf(op) in s.jobs {
      assert Sound(s, JobOf(op));
    }
  }

  /** What a call answers at its write. */
  function WriteAnswer(i: Intent): Answer { if i.op.Enqueue? then Stored(i.record) else Done(true) }

  /** A write does and answers what the whole call would now, exactly when it overrides nothing. */
  lemma WriteIsWholeIff(w: World, s: Store, step: Step)
    requires LeftBy(w, s) && Writes(w, step)
    ensures var i := IntentAt(w, step);
      Move(w, step).jobs == Apply(s, i.op).jobs && WriteAnswer(i) == AnswerOf(s, i.op) <==> !Overrides(w, step)
    ensures Overrides(w, step) ==> Apply(s, IntentAt(w, step).op) == s && IntentAt(w, step).record.id in s.jobs
  {
    var i := IntentAt(w, step);
    var id := i.record.id;
    if id in s.jobs {
      assert Sound(s, id);
      assert Overrides(w, step) && i.op.Enqueue? ==> Move(w, step).jobs[id] != s.jobs[id];
    }
  }

  lemma OneMoreCall(ops: seq<Op>, op: Op)
    ensures Run(EMPTY, ops + [op]) == Apply(Run(EMPTY, ops), op)
    ensures FreshRun(EMPTY, ops + [op]) <==> FreshRun(EMPTY, ops) && Fresh(Run(EMPTY, ops), op)
    ensures WholeAnswers(ops + [op]) == WholeAnswers(ops) + [AnswerOf(Run(EMPTY, ops), op)]
  {
    assert (ops + [op])[..|ops|] == ops;
  }

  /** One call takes effect at this step, does what it does as a whole, and answers so. */
  lemma CallIsWhole(w: World, s: Store, step: Step)
    requires LeftBy(w, s) && !Overrides(w, step) && CallAt(w, step) != []
    requires step.Whole? ==> Fresh(Table(w), step.op)
    ensures var op := CallAt(w, step)[0];
      && CallAt(w, step) == [op] && AnswerAt(w, step) == [AnswerOf(s, op)] && Fresh(s, op)
      && Move(w, step).jobs == Apply(s, op).jobs && Move(w, step).issued == Apply(s, op).issued
  {
    if Writes(w, step) {
      WriteIsWholeIff(w, s, step);
    } else {
      ApplyRows(Table(w), s, step.op);
    }
  }

  lemma MoveIsLeftBy(w: World, s: Store, step: Step)
    requires LeftBy(w, s) && !Overrides(w, step) && (step.Whole? ==> Fresh(Table(w), step.op))
    ensures LeftBy(Move(w, step), if CallAt(w, step) == [] then s else Apply(s, CallAt(w, step)[0]))
  {
    var v := Move(w, step);
    if CallAt(w, step) == [] {
      if step.Read? && step.client !in w.intents && Prepare(Table(w), step.op).Some? {
        assert Prepare(Table(w), step.op) == Prepare(s, step.op);
        PreparedIsCurrent(s, step.op);
      }
    } else {
      var op := CallAt(w, step)[0];
      CallIsWhole(w, s, step);
      ApplyKeeps(s, op);
      forall c | c in v.intents ensures Prepared(v.intents[c]) && Current(Apply(s, op), v.intents[c]) {
        CurrentStays(s, op, w.intents[c]);
      }
    }
  }

  /** Records and answers are those of whole calls. */
  predicate LooksWhole(steps: seq<Step>) {
    && Reached(steps).jobs == Run(EMPTY, CallsOf(steps)).jobs
    && AnswersOf(steps) == WholeAnswers(CallsOf(steps))
  }

  predicate LooksWholeThroughout(steps: seq<Step>) {
    forall k :: 0 <= k <= |steps| ==> LooksWhole(steps[..k])
  }

  lemma PrefixIsNeverOverridden(steps: seq<Step>, n: nat)
    requires n <= |steps| && NeverOverridden(steps)
    ensures NeverOverridden(steps[..n])
  {
    forall k: nat | k < n ensures !OverridesAt(steps[..n], k) {
      assert steps[..n][..k] == steps[..k];
      assert !OverridesAt(steps, k);
    }
  }

  lemma {:induction false} WholeRun(steps: seq<Step>)
    requires FreshSteps(steps) && NeverOverridden(steps)
    ensures FreshRun(EMPTY, CallsOf(steps)) && LeftBy(Reached(steps), Run(EMPTY, CallsOf(steps)))
    ensures LooksWhole(steps)
  {
    if steps != [] {
      var n := |steps| - 1;
      var w, ops := Reached(steps[..n]), CallsOf(steps[..n]);
      PrefixIsNeverOverridden(steps, n);
      WholeRun(steps[..n]);
      assert !OverridesAt(steps, n);
      MoveIsLeftBy(w, Run(EMPTY, ops), steps[n]);
      if CallAt(w, steps[n]) == [] {
        assert ops + [] == ops && AnswersOf(steps[..n]) + [] == AnswersOf(steps[..n]);
      } else {
        CallIsWhole(w, Run(EMPTY, ops), steps[n]);
        OneMoreCall(ops, CallAt(w, steps[n])[0]);
      }
    }
  }

  lemma {:induction false} FreshPrefix(steps: seq<Step>, k: nat)
    requires k <= |steps| && FreshSteps(steps)
    ensures FreshSteps(steps[..k])
  {
    if k == |steps| {
      assert steps[..k] == steps;
    } else {
      FreshPrefix(steps[..|steps| - 1], k);
      assert steps[..|steps| - 1][..k] == steps[..k];
    }
  }

  /** The first write that overrides something. */
  lemma {:induction false} FirstOverride(steps: seq<Step>) returns (k: nat)
    requires !NeverOverridden(steps)
    ensures k < |steps| && OverridesAt(steps, k) && NeverOverridden(steps[..k])
  {
    k :| k < |steps| && OverridesAt(steps, k);
    if !NeverOverridden(steps[..k]) {
      var j := FirstOverride(steps[..k]);
      assert steps[..k][..j] == steps[..j];
      k := j;
    }
  }

  lemma OverrideShows(steps: seq<Step>)
    requires steps != [] && FreshSteps(steps) && NeverOverridden(steps[..|steps| - 1])
    requires OverridesAt(steps, |steps| - 1)
    ensures !LooksWhole(steps)
  {
    var n := |steps| - 1;
    var w, ops := Reached(steps[..n]), CallsOf(steps[..n]);
    var i := IntentAt(w, steps[n]);
    WholeRun(steps[..n]);
    WriteIsWholeIff(w, Run(EMPTY, ops), steps[n]);
    OneMoreCall(ops, i.op);
    LastAnswers(AnswersOf(steps[..n]), WriteAnswer(i), WholeAnswers(ops), AnswerOf(Run(EMPTY, ops), i.op));
  }

  lemma LastAnswers(a: seq<Answer>, x: Answer, b: seq<Answer>, y: Answer)
    ensures a + [x] == b + [y] ==> x == y
  {
    if a + [x] == b + [y] {
      assert (a + [x])[|a|] == (b + [y])[|b|];
    }
  }

  /**
   * Calls that read and then write leave the records and give the answers of whole calls, at every moment of a
   * run, exactly when every overtaken write is an enqueue that finds its own record stored.
   */
  lemma SplitCallsLookWholeIff(steps: seq<Step>)
    requires FreshSteps(steps)
    ensures LooksWholeThroughout(steps) <==> NeverOverridden(steps)
  {
    if NeverOverridden(steps) {
      forall k | 0 <= k <= |steps| ensures LooksWhole(steps[..k]) {
        PrefixIsNeverOverridden(steps, k);
        FreshPrefix(steps, k);
        WholeRun(steps[..k]);
      }
    } else {
      var k := FirstOverride(steps);
      FreshPrefix(steps, k + 1);
      assert steps[..k + 1][..k] == steps[..k];
      OverrideShows(steps[..k + 1]);
      assert !LooksWhole(steps[..k + 1]);
    }
  }
}
