/** The first write of a run that overrides a job, told by what it finds; and a run for each thing it can do. */
module RaceExamples {
  import opened Wrappers
  import opened Jobs
  import opened JobHistory
  import opened JobRaces
  import opened RaceGuarantees

  // ----- the first override -----

  /** Whoever held the job no longer does. */
  ghost predicate LosesLease(w: World, v: World, id: JobId) {
    exists lease :: HeldIn(Table(w), id, lease) && !HeldIn(Table(v), id, lease)
  }

  /** The write of this call leaves its job open to a lease before the time given. */
  predicate FreesBefore(i: Intent, time: Time)
    requires Prepared(i)
  {
    match i.op
    case Enqueue(spec, now) => GetOr(spec.maxAttempts, DEFAULT_MAX_ATTEMPTS) > 0 && GetOr(spec.availableAt, now) < time
    case CompleteJob(_, _, _, _, _) => false
    case FailJob(_, _, _, block, seed, now) =>
      !block && !Spent(i.read.value) && now + Backoff(i.read.value.attempt, seed) < time
  }

  lemma FreedIsLeasable(w: World, step: Step, time: Time)
    requires InOrder(w) && Writes(w, step)
    ensures Prepared(IntentAt(w, step))
    ensures Leasable(Move(w, step), IntentAt(w, step).record.id, time) <==> FreesBefore(IntentAt(w, step), time)
  {
    var record := IntentAt(w, step).record;
    if Open(record) && record.availableAt < time {
      OpenIsLeasable(Move(w, step), record.id, time);
    }
  }

  /** Up to the first override a job has been completed exactly when it has succeeded. */
  lemma SucceededIsCompletedOnce(steps: seq<Step>, id: JobId)
    requires NeverOverridden(steps)
    ensures Completions(steps, id) == if HasSucceeded(Reached(steps), id) then 1 else 0
  {
    CompletionsSoFar(steps, id);
    UndisturbedCompletesOnce(steps, id);
    if k: nat :| k < |steps| && WritesOverSuccessAt(steps, k, id) {
      SuccessIsOverridden(steps, k, id);
    }
  }

  /** What the first override does to the lease of the job it finds. */
  lemma OverrideTakesLease(w: World, s: Store, step: Step)
    requires LeftBy(w, s) && InOrder(w) && Overrides(w, step)
    ensures var i := IntentAt(w, step); var id := i.record.id;
      && id in w.jobs && i.record == Move(w, step).jobs[id]
      && (LosesLease(w, Move(w, step), id) <==> w.jobs[id].state.Leased?)
      && (w.jobs[id].state.Leased? ==> w.jobs[id].leaseExpiresAt.Some?)
  {
    var i := IntentAt(w, step);
    WriteIsWholeIff(w, s, step);
    assert Sound(s, i.record.id);
    assert Prepared(i);
    var job := w.jobs[i.record.id];
    if job.state.Leased? {
      assert HeldIn(Table(w), i.record.id, job.leaseId.value);
    }
  }

  /**
   * The first write of a run that overrides a job, where the whole call would have changed nothing: it is a
   * second completion exactly when it completes a job that has succeeded, it takes the job from a holder
   * exactly when it finds the job leased, and then lets another in before that lease runs out exactly when it
   * writes a job that is pending, with attempts left, and available before then.
   */
  lemma FirstOverrideDecides(steps: seq<Step>)
    requires steps != [] && FreshSteps(steps) && NeverOverridden(steps[..|steps| - 1])
    requires OverridesAt(steps, |steps| - 1)
    ensures var w, v := Reached(steps[..|steps| - 1]), Reached(steps);
      var i := IntentAt(w, steps[|steps| - 1]);
      var id := i.record.id;
      && Prepared(i) && id in w.jobs && Apply(Table(w), i.op).jobs == w.jobs
      && AnswerOf(Table(w), i.op) == (if i.op.Enqueue? then Stored(w.jobs[id]) else Done(false))
      && (Completions(steps, id) == 2 <==> i.op.CompleteJob? && w.jobs[id].state.Succeeded?)
      && (LosesLease(w, v, id) <==> w.jobs[id].state.Leased?)
      && (w.jobs[id].state.Leased? ==>
            && w.jobs[id].leaseExpiresAt.Some?
            && (Leasable(v, id, w.jobs[id].leaseExpiresAt.value) <==> FreesBefore(i, w.jobs[id].leaseExpiresAt.value)))
  {
    var n := |steps| - 1;
    var w, step := Reached(steps[..n]), steps[n];
    var i, s := IntentAt(w, step), Run(EMPTY, CallsOf(steps[..n]));
    AlwaysInOrder(steps[..n]);
    WholeRun(steps[..n]);
    OverrideTakesLease(w, s, step);
    OverrideIsNoCall(w, s, step);
    SucceededIsCompletedOnce(steps[..n], i.record.id);
    if w.jobs[i.record.id].state.Leased? {
      FreedIsLeasable(w, step, w.jobs[i.record.id].leaseExpiresAt.value);
    }
  }

  /** The whole call would leave the records alone, and say so. */
  lemma OverrideIsNoCall(w: World, s: Store, step: Step)
    requires LeftBy(w, s) && Overrides(w, step)
    ensures var i := IntentAt(w, step);
      && Prepared(i) && i.record.id in w.jobs && Apply(Table(w), i.op).jobs == w.jobs
      && AnswerOf(Table(w), i.op) == (if i.op.Enqueue? then Stored(w.jobs[i.record.id]) else Done(false))
  {
    var i := IntentAt(w, step);
    WriteIsWholeIff(w, s, step);
    ApplyRows(Table(w), s, i.op);
    assert Prepared(i) && Current(s, i);
  }

  // ----- runs -----

  const SPEC := Spec(7, 0, 0, 0, Gate, None, None, None, None)

  const JOB := NewJob(SPEC, 0)

  /** Two clients enqueue at the same time: the second write finds its own record, and nobody can tell. */
  const LATE := [Read(1, Enqueue(SPEC, 0)), Read(2, Enqueue(SPEC, 0)), Write(1), Write(2)]

  /** Two clients enqueue at once, and the job is leased before the second writes: its lease is forgotten. */
  const RESET := [
    Read(1, Enqueue(SPEC, 0)), Read(2, Enqueue(SPEC, 0)),
    Write(1), Whole(LeaseById(7, 1, 10, 0)), Write(2)]

  /** The holder completes its job twice at once: both calls are told that they completed it. */
  const TWICE := [
    Whole(Enqueue(SPEC, 0)), Whole(LeaseById(7, 1, 10, 0)),
    Read(1, CompleteJob(7, 1, None, None, 1)), Read(2, CompleteJob(7, 1, None, None, 1)),
    Write(1), Write(2)]

  /** A holder fails its job late, after another client leased it: the job is leased a third time too soon. */
  const EARLY := [
    Whole(Enqueue(SPEC, 0)), Whole(LeaseById(7, 1, 10, 0)),
    Read(1, FailJob(7, 1, Reported(0), false, 0, 9)), Whole(LeaseById(7, 2, 100000, 10)),
    Write(1), Whole(LeaseById(7, 3, 100000, 2000))]

  lemma StepOn(steps: seq<Step>, k: nat)
    requires k < |steps|
    ensures Reached(steps[..k + 1]) == Move(Reached(steps[..k]), steps[k])
    ensures FreshSteps(steps[..k + 1]) <==>
      FreshSteps(steps[..k]) && (steps[k].Whole? ==> Fresh(Table(Reached(steps[..k])), steps[k].op))
  {
    assert steps[..k + 1][..k] == steps[..k];
  }

  lemma Begun(steps: seq<Step>)
    ensures Reached(steps[..0]) == START && FreshSteps(steps[..0])
  {
  }

  const FIRST := Grant(JOB, 1, 0, 10)

  /** Both clients found the job missing, and one has written it. */
  lemma BothEnqueue(steps: seq<Step>)
    requires |steps| >= 3 && steps[..3] == LATE[..3]
    ensures var i := Intent(Enqueue(SPEC, 0), None, JOB);
      && Reached(steps[..2]) == World(map[], {}, map[1 := i, 2 := i])
      && Reached(steps[..3]) == World(map[7 := JOB], {}, map[2 := i]) && FreshSteps(steps[..3])
  {
    assert steps[..2] == steps[..3][..2] == LATE[..2];
    var i := Intent(Enqueue(SPEC, 0), None, JOB);
    Begun(LATE);
    StepOn(LATE, 0);
    StepOn(LATE, 1);
    StepOn(LATE, 2);
  }

  /** An overtaken enqueue that looks whole. */
  lemma LateEnqueueLooksWhole()
    ensures FreshSteps(LATE) && Overtaken(Reached(LATE[..3]), LATE[3]) && LooksWholeThroughout(LATE)
  {
    BothEnqueue(LATE);
    StepOn(LATE, 3);
    assert LATE[..4] == LATE;
    forall k: nat | k < 4 ensures !OverridesAt(LATE, k) {
      if k == 3 {
        assert RowOf(Reached(LATE[..3]).jobs, 7) == Some(JOB);
      }
    }
    SplitCallsLookWholeIff(LATE);
  }

  /** A late enqueue starts a leased job over: it is pending with no attempts while its lease runs. */
  lemma OvertakenForgetsALease()
    ensures FreshSteps(RESET) && OverridesAt(RESET, 4)
    ensures LeasesAt(RESET, 3, 7) && ExpiryFrom(RESET[3]) == 10
    ensures Reached(RESET[..4]).jobs == map[7 := FIRST] && Reached(RESET).jobs == map[7 := JOB]
  {
    BothEnqueue(RESET);
    StepOn(RESET, 3);
    StepOn(RESET, 4);
    assert RESET[..5] == RESET;
  }

  /** The first two steps of a run enqueue the job and lease it. */
  lemma LeasedOnce(steps: seq<Step>)
    requires |steps| >= 2 && steps[0] == Whole(Enqueue(SPEC, 0)) && steps[1] == Whole(LeaseById(7, 1, 10, 0))
    ensures Reached(steps[..2]) == World(map[7 := FIRST], {1}, map[]) && FreshSteps(steps[..2])
  {
    Begun(steps);
    StepOn(steps, 0);
    assert Reached(steps[..1]) == World(map[7 := JOB], {}, map[]);
    StepOn(steps, 1);
  }

  /**
   * Whenever a lease is held, two calls can both be told that they completed the job. The records are those of
   * two whole calls, of which the second would be told that it did not.
   */
  lemma BothComplete(w: World, op: Op)
    requires w.intents == map[] && op.CompleteJob? && HeldIn(Table(w), op.id, op.lease)
    requires w.jobs[op.id].id == op.id
    ensures var v := Move(Move(Move(w, Read(1, op)), Read(2, op)), Write(1));
      && Completes(Move(Move(w, Read(1, op)), Read(2, op)), Write(1), op.id)
      && Completes(v, Write(2), op.id) && Overrides(v, Write(2))
      && Move(v, Write(2)).jobs == v.jobs == Apply(Table(w), op).jobs == Apply(Apply(Table(w), op), op).jobs
      && AnswerOf(Apply(Table(w), op), op) == Done(false)
  {
    var u := Move(Move(w, Read(1, op)), Read(2, op));
    assert u.jobs == w.jobs && u.intents.Keys == {1, 2};
    assert u.intents[1] == u.intents[2] == Prepare(Table(w), op).value;
  }

  lemma TwiceReads()
    ensures var w, op := Reached(TWICE[..2]), CompleteJob(7, 1, None, None, 1);
      && Reached(TWICE[..4]) == Move(Move(w, Read(1, op)), Read(2, op))
      && (FreshSteps(TWICE[..4]) <==> FreshSteps(TWICE[..2]))
  {
    StepOn(TWICE, 2);
    StepOn(TWICE, 3);
  }

  /** Two calls are told that they completed the job. */
  lemma OvertakenCompletesTwice()
    ensures FreshSteps(TWICE) && WritesOverSuccessAt(TWICE, 5, 7) && CompletesAt(TWICE, 5, 7)
    ensures Completions(TWICE, 7) >= 2
  {
    LeasedOnce(TWICE);
    TwiceReads();
    BothComplete(Reached(TWICE[..2]), CompleteJob(7, 1, None, None, 1));
    StepOn(TWICE, 4);
    StepOn(TWICE, 5);
    assert TWICE[..6] == TWICE;
    assert WritesOverSuccessAt(TWICE, 5, 7) && CompletesAt(TWICE, 5, 7);
    CompletesTwiceIff(TWICE, 7);
  }

  const SECOND := Grant(FIRST, 2, 10, 100010)

  const FAILED := Fail(FIRST, Reported(0), false, 0, 9)

  /** The second client holds the job, and the first has its failure in mind. */
  lemma LateFailureWaits()
    ensures var i := Intent(FailJob(7, 1, Reported(0), false, 0, 9), Some(FIRST), FAILED);
      Reached(EARLY[..4]) == World(map[7 := SECOND], {1, 2}, map[1 := i]) && FreshSteps(EARLY[..4])
    ensures LeasesAt(EARLY, 3, 7)
  {
    LeasedOnce(EARLY);
    StepOn(EARLY, 2);
    StepOn(EARLY, 3);
  }

  lemma LateFailureFrees()
    ensures Reached(EARLY[..5]) == World(map[7 := FAILED], {1, 2}, map[]) && FreshSteps(EARLY[..5])
    ensures OverridesAt(EARLY, 4) && !FailsUnderAt(EARLY, 4, 7, 2)
  {
    LateFailureWaits();
    StepOn(EARLY, 4);
  }

  lemma FailedIsOpen()
    ensures Open(FAILED) && FAILED.id == 7 && FAILED.availableAt <= 2000
  {
    BackoffDoubles(1, 0);
  }

  lemma SecondIsLast()
    ensures LastLease(EARLY[..5], 3, 7)
  {
    LateFailureWaits();
    LateFailureFrees();
    assert EARLY[..5][..3] == EARLY[..3] && EARLY[..5][..4] == EARLY[..4];
  }

  /** A late failure frees a job that another client holds until 100010: it is leased again at 2000. */
  lemma OvertakenLeasesEarly()
    ensures FreshSteps(EARLY) && OverridesAt(EARLY, 4)
    ensures LastLease(EARLY[..5], 3, 7) && ExpiryFrom(EARLY[3]) == 100010
    ensures LeasesAt(EARLY, 5, 7) && EARLY[5].op.now == 2000
  {
    LateFailureFrees();
    SecondIsLast();
    FailedIsOpen();
    StepOn(EARLY, 5);
    assert EARLY[..6] == EARLY;
  }
}
