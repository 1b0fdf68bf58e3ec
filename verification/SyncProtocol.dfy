/** Many pushes at once: every interleaving of their reads, batches and re-reads. */
module SyncProtocol {
  import opened Wrappers
  import opened Sync

  type ClientId = int

  /** How far one push request has come. */
  datatype Phase =
    | Arrived
    | Checked
    | Batched(report: Report)
    | Answered(answer: Answer)

  datatype Client = Client(request: PushRequest, phase: Phase)

  /** The database, the requests in flight, and which request committed each key. */
  datatype World = World(db: Db, clients: map<ClientId, Client>, committer: map<(ZoneId, Key), ClientId>)

  datatype Step =
    | Arrive(c: ClientId, request: PushRequest)
    | Check(c: ClientId)
    | Batch(c: ClientId, outcome: Outcome)
    | Reread(c: ClientId)

  function At(r: PushRequest): (ZoneId, Key) { (r.zone, r.key) }

  function Advance(w: World, c: ClientId, phase: Phase): World
    requires c in w.clients
  {
    w.(clients := w.clients[c := w.clients[c].(phase := phase)])
  }

  /** The first read: an invalid or already known request is answered at once. */
  function CheckPhase(db: Db, r: PushRequest): Phase {
    if Validate(r).Some? then Answered(Invalid(Validate(r).value))
    else if At(r) in db.requests then Answered(ReplayOrConflict(db.requests[At(r)], r))
    else Checked
  }

  function Commits(db: Db, r: PushRequest, outcome: Outcome): bool {
    Validate(r).None? && !Violates(db, r) && !Undone(outcome)
  }

  /** A step that its client is not ready for changes nothing. */
  function Apply(w: World, s: Step): World {
    match s
    case Arrive(c, r) => if c in w.clients then w else w.(clients := w.clients[c := Client(r, Arrived)])
    case Check(c) =>
      if c !in w.clients || !w.clients[c].phase.Arrived? then w
      else Advance(w, c, CheckPhase(w.db, w.clients[c].request))
    case Batch(c, outcome) =>
      if c !in w.clients || !w.clients[c].phase.Checked? || Validate(w.clients[c].request).Some? then w
      else
        var r := w.clients[c].request;
        var after := Advance(w, c, Batched(BatchReport(w.db, r, outcome)));
        World(BatchDb(w.db, r, outcome), after.clients,
              if Commits(w.db, r, outcome) then w.committer[At(r) := c] else w.committer)
    case Reread(c) =>
      if c !in w.clients || !w.clients[c].phase.Batched? then w
      else Advance(w, c, Answered(AnswerAfter(w.db, w.clients[c].request, w.clients[c].phase.report)))
  }

  function Run(w: World, steps: seq<Step>): World {
    if steps == [] then w else Apply(Run(w, steps[..|steps| - 1]), steps[|steps| - 1])
  }

  const EMPTY := World(Db(map[], map[], map[]), map[], map[])

  // ----- what the tables satisfy -----

  /** The result names exactly this record, and the very sequence stored on it. */
  predicate Names(result: PushResult, ref: Ref, n: nat) {
    && result.eventIds == (if ref.kind.EventRecord? then [ref.id] else [])
    && result.erasureIds == (if ref.kind.EventRecord? then [] else [ref.id])
    && result.lastSequence == Some(n)
  }

  /** A stored record: its sequence is within the counter and stamped on it, and its key's row names it. */
  ghost predicate RecordOk(db: Db, ref: Ref) {
    && ref in db.records
    && var stored := db.records[ref];
       && 1 <= stored.sequence <= Counter(db, ref.zone) && stored.stamp == stored.sequence
       && (ref.zone, stored.key) in db.requests
       && db.requests[(ref.zone, stored.key)].result.Some?
       && Names(db.requests[(ref.zone, stored.key)].result.value, ref, stored.sequence)
  }

  ghost predicate Keeps(db: Db, ref: Ref, zone: ZoneId, key: Key) {
    ref in db.records && ref.zone == zone && db.records[ref].key == key
  }

  /** A visible request row is never pending, and its key has a record. */
  ghost predicate RequestOk(db: Db, at: (ZoneId, Key)) {
    && at in db.requests
    && db.requests[at].status.AcceptedRequest?
    && db.requests[at].result.Some?
    && db.requests[at].result.value.status.AcceptedPush?
    && db.requests[at].result.value.requestId == db.requests[at].requestId
    && exists ref :: Keeps(db, ref, at.0, at.1)
  }

  ghost predicate HasSequence(db: Db, ref: Ref, zone: ZoneId, n: nat) {
    ref in db.records && ref.zone == zone && db.records[ref].sequence == n
  }

  /** Some record of the zone carries sequence `n`. */
  ghost predicate Numbered(db: Db, zone: ZoneId, n: nat) {
    exists ref :: HasSequence(db, ref, zone, n)
  }

  /** No two records of one zone, of either table, share a sequence. */
  ghost predicate Unshared(db: Db, a: Ref, b: Ref) {
    (a in db.records && b in db.records && a.zone == b.zone && db.records[a].sequence == db.records[b].sequence)
    ==> a == b
  }

  ghost predicate DbInv(db: Db) {
    && (forall ref {:trigger RecordOk(db, ref)} :: ref in db.records ==> RecordOk(db, ref))
    && (forall at {:trigger RequestOk(db, at)} :: at in db.requests ==> RequestOk(db, at))
    && (forall zone, n: nat {:trigger Numbered(db, zone, n)} :: 1 <= n <= Counter(db, zone) ==> Numbered(db, zone, n))
    && (forall a, b {:trigger Unshared(db, a, b)} :: Unshared(db, a, b))
  }

  /** `later` is `db` after more commits: nothing is changed or lost, new records come after the counter. */
  ghost predicate Extends(later: Db, db: Db) {
    && (forall at :: at in db.requests ==> at in later.requests && later.requests[at] == db.requests[at])
    && (forall ref :: ref in db.records ==> ref in later.records && later.records[ref] == db.records[ref])
    && (forall ref :: ref in later.records && ref !in db.records ==>
          later.records[ref].sequence > Counter(db, ref.zone))
    && (forall zone :: Counter(db, zone) <= Counter(later, zone))
  }

  /** An accepted or replayed answer names the record of its key, and the sequence stored on it. */
  ghost predicate AnswerOk(db: Db, r: PushRequest, answer: Answer) {
    answer.Result? && !answer.result.status.ConflictingPush? ==>
      && At(r) in db.requests && db.requests[At(r)].fingerprint == r.fingerprint
      && exists ref :: Keeps(db, ref, r.zone, r.key) && Names(answer.result, ref, db.records[ref].sequence)
  }

  predicate IsAccepted(answer: Answer) { answer.Result? && answer.result.status.AcceptedPush? }

  /** The row of this key was written by this client for this request. */
  ghost predicate CommittedBy(w: World, c: ClientId, r: PushRequest) {
    && At(r) in w.committer && w.committer[At(r)] == c
    && At(r) in w.db.requests && w.db.requests[At(r)].fingerprint == r.fingerprint
    && w.db.requests[At(r)].requestId == r.requestId
  }

  ghost predicate ClientOk(w: World, c: ClientId) {
    && c in w.clients
    && var r := w.clients[c].request;
       match w.clients[c].phase
       case Arrived => true
       case Checked => Validate(r).None?
       case Batched(report) => report.Done? ==> CommittedBy(w, c, r)
       case Answered(answer) =>
         && AnswerOk(w.db, r, answer)
         && answer != NotPersisted
         && (IsAccepted(answer) ==> CommittedBy(w, c, r) && answer.result.requestId == r.requestId)
  }

  ghost predicate WorldInv(w: World) {
    && DbInv(w.db)
    && (forall at :: at in w.committer ==> at in w.db.requests)
    && forall c {:trigger ClientOk(w, c)} :: c in w.clients ==> ClientOk(w, c)
  }

  // ----- a commit keeps the tables right -----

  lemma NextIsFree(db: Db, r: PushRequest)
    requires DbInv(db) && Validate(r).None?
    ensures !SequenceTaken(db, KindOf(r), r.zone, Counter(db, r.zone) + 1)
  {
    forall ref | ref in db.records && ref.zone == r.zone
      ensures db.records[ref].sequence != Counter(db, r.zone) + 1
    {
      assert RecordOk(db, ref);
    }
  }

  /** Only a used key or a used record id stops a batch: the shared counter never collides. */
  lemma ViolationMeansDuplicate(db: Db, r: PushRequest)
    requires DbInv(db) && Validate(r).None?
    ensures Violates(db, r) <==> At(r) in db.requests || RefOf(r) in db.records
  {
    NextIsFree(db, r);
  }

  lemma CommitExtends(db: Db, r: PushRequest)
    requires DbInv(db) && Validate(r).None? && !Violates(db, r)
    ensures Extends(Committed(db, r), db)
  {
  }

  lemma CommitKeepsTables(db: Db, r: PushRequest)
    requires DbInv(db) && Validate(r).None? && !Violates(db, r)
    ensures DbInv(Committed(db, r))
  {
    var after := Committed(db, r);
    forall ref | ref in after.records ensures RecordOk(after, ref) {
      if ref != RefOf(r) {
        assert RecordOk(db, ref);
      }
    }
    forall at | at in after.requests ensures RequestOk(after, at) {
      if at == At(r) {
        assert Keeps(after, RefOf(r), r.zone, r.key);
      } else {
        assert RequestOk(db, at);
        var ref :| Keeps(db, ref, at.0, at.1);
        assert Keeps(after, ref, at.0, at.1);
      }
    }
    forall zone, m: nat | 1 <= m <= Counter(after, zone) ensures Numbered(after, zone, m) {
      CommitNumbers(db, r, zone, m);
    }
    forall a, b ensures Unshared(after, a, b) {
      CommitSharesNothing(db, r, a, b);
    }
  }

  lemma CommitNumbers(db: Db, r: PushRequest, zone: ZoneId, m: nat)
    requires DbInv(db) && Validate(r).None? && !Violates(db, r)
    requires 1 <= m <= Counter(Committed(db, r), zone)
    ensures Numbered(Committed(db, r), zone, m)
  {
    var after := Committed(db, r);
    if zone == r.zone && m == Counter(db, r.zone) + 1 {
      assert HasSequence(after, RefOf(r), zone, m);
    } else {
      assert Numbered(db, zone, m);
      var ref :| HasSequence(db, ref, zone, m);
      assert HasSequence(after, ref, zone, m);
    }
  }

  lemma CommitSharesNothing(db: Db, r: PushRequest, a: Ref, b: Ref)
    requires DbInv(db) && Validate(r).None? && !Violates(db, r)
    ensures Unshared(Committed(db, r), a, b)
  {
    assert Unshared(db, a, b);
    if a in db.records {
      assert RecordOk(db, a);
    }
    if b in db.records {
      assert RecordOk(db, b);
    }
  }

  // ----- every step keeps the invariant -----

  lemma ExtensionKeepsClients(w: World, v: World, c: ClientId)
    requires c in w.clients && ClientOk(w, c) && Extends(v.db, w.db)
    requires c in v.clients && v.clients[c] == w.clients[c]
    requires forall at :: at in w.committer ==> at in v.committer && v.committer[at] == w.committer[at]
    ensures ClientOk(v, c)
  {
    var r := w.clients[c].request;
    if w.clients[c].phase.Answered? {
      var answer := w.clients[c].phase.answer;
      if answer.Result? && !answer.result.status.ConflictingPush? {
        var ref :| Keeps(w.db, ref, r.zone, r.key) && Names(answer.result, ref, w.db.records[ref].sequence);
        assert Keeps(v.db, ref, r.zone, r.key);
      }
    }
  }

  /** Reading the row of a key back gives an answer that names the key's record. */
  lemma RowAnswers(db: Db, r: PushRequest)
    requires DbInv(db) && At(r) in db.requests
    ensures AnswerOk(db, r, ReplayOrConflict(db.requests[At(r)], r))
    ensures db.requests[At(r)].fingerprint == r.fingerprint ==>
      db.requests[At(r)].result.Some? && AnswerOk(db, r, Result(db.requests[At(r)].result.value))
  {
    assert RequestOk(db, At(r));
    var ref :| Keeps(db, ref, r.zone, r.key);
    assert RecordOk(db, ref);
  }

  lemma RereadAnswers(w: World, c: ClientId)
    requires WorldInv(w) && c in w.clients && w.clients[c].phase.Batched?
    ensures ClientOk(Apply(w, Reread(c)), c)
  {
    var r := w.clients[c].request;
    assert ClientOk(w, c);
    if At(r) in w.db.requests {
      RowAnswers(w.db, r);
      assert RequestOk(w.db, At(r));
    }
  }

  lemma ApplyKeeps(w: World, s: Step)
    requires WorldInv(w)
    ensures WorldInv(Apply(w, s))
    ensures Extends(Apply(w, s).db, w.db)
  {
    var v := Apply(w, s);
    if s.Batch? && v != w && Commits(w.db, w.clients[s.c].request, s.outcome) {
      CommitKeepsTables(w.db, w.clients[s.c].request);
      CommitExtends(w.db, w.clients[s.c].request);
    }
    forall c | c in v.clients ensures ClientOk(v, c) {
      if c in w.clients && v.clients[c] == w.clients[c] {
        assert ClientOk(w, c);
        ExtensionKeepsClients(w, v, c);
      } else {
        MovedClientIsOk(w, s, c);
      }
    }
  }

  lemma MovedClientIsOk(w: World, s: Step, c: ClientId)
    requires WorldInv(w) && c in Apply(w, s).clients
    requires c in w.clients ==> Apply(w, s).clients[c] != w.clients[c]
    ensures ClientOk(Apply(w, s), c)
  {
    if s.Check? && At(w.clients[c].request) in w.db.requests {
      RowAnswers(w.db, w.clients[c].request);
      assert RequestOk(w.db, At(w.clients[c].request));
    } else if s.Reread? {
      RereadAnswers(w, c);
    }
  }

  lemma {:induction false} RunKeeps(w: World, steps: seq<Step>)
    requires WorldInv(w)
    ensures WorldInv(Run(w, steps))
  {
    if steps != [] {
      RunKeeps(w, steps[..|steps| - 1]);
      ApplyKeeps(Run(w, steps[..|steps| - 1]), steps[|steps| - 1]);
    }
  }

  lemma ReachableWorldsAreRight(steps: seq<Step>)
    ensures WorldInv(Run(EMPTY, steps))
  {
    RunKeeps(EMPTY, steps);
  }

  // ----- what it means for clients -----

  /**
   * Under every interleaving of pushes, including batches that commit but report an error, the records of
   * each zone (events and erasures together) carry the sequences 1..last_sequence, each exactly once.
   */
  lemma SequencesAreGapless(steps: seq<Step>, zone: ZoneId, n: nat)
    ensures var db := Run(EMPTY, steps).db;
      && (1 <= n <= Counter(db, zone) <==> exists ref :: HasSequence(db, ref, zone, n))
      && forall a, b :: HasSequence(db, a, zone, n) && HasSequence(db, b, zone, n) ==> a == b
  {
    var db := Run(EMPTY, steps).db;
    ReachableWorldsAreRight(steps);
    if 1 <= n <= Counter(db, zone) {
      assert Numbered(db, zone, n);
    }
    forall ref | HasSequence(db, ref, zone, n) ensures 1 <= n <= Counter(db, zone) {
      assert RecordOk(db, ref);
    }
    forall a, b | HasSequence(db, a, zone, n) && HasSequence(db, b, zone, n) ensures a == b {
      assert Unshared(db, a, b);
    }
  }

  /** A key that has a visible row has exactly one record, and the row is never pending. */
  lemma OneRecordPerKey(steps: seq<Step>, zone: ZoneId, key: Key)
    ensures var db := Run(EMPTY, steps).db;
      && ((zone, key) in db.requests <==> exists ref :: Keeps(db, ref, zone, key))
      && ((zone, key) in db.requests ==> db.requests[(zone, key)].status.AcceptedRequest?)
      && forall a, b :: Keeps(db, a, zone, key) && Keeps(db, b, zone, key) ==> a == b
  {
    var db := Run(EMPTY, steps).db;
    ReachableWorldsAreRight(steps);
    if (zone, key) in db.requests {
      assert RequestOk(db, (zone, key));
    }
    forall ref | Keeps(db, ref, zone, key) ensures (zone, key) in db.requests {
      assert RecordOk(db, ref);
    }
    forall a, b | Keeps(db, a, zone, key) && Keeps(db, b, zone, key) ensures a == b {
      assert RecordOk(db, a) && RecordOk(db, b);
    }
  }

  /**
   * Every accepted or replayed answer for a key names the one record of that key and the very sequence
   * stored on it; in particular all such answers agree.
   */
  lemma AnswersNameTheRecord(steps: seq<Step>, c: ClientId)
    requires c in Run(EMPTY, steps).clients && Run(EMPTY, steps).clients[c].phase.Answered?
    ensures var w := Run(EMPTY, steps);
      && AnswerOk(w.db, w.clients[c].request, w.clients[c].phase.answer)
      && w.clients[c].phase.answer != NotPersisted
  {
    ReachableWorldsAreRight(steps);
    assert ClientOk(Run(EMPTY, steps), c);
  }

  /** Two successful answers for one key name the same ids and the same sequence. */
  lemma AnswersAgree(steps: seq<Step>, c: ClientId, d: ClientId)
    requires var w := Run(EMPTY, steps);
      && c in w.clients && d in w.clients && w.clients[c].phase.Answered? && w.clients[d].phase.Answered?
      && At(w.clients[c].request) == At(w.clients[d].request)
      && w.clients[c].phase.answer.Result? && !w.clients[c].phase.answer.result.status.ConflictingPush?
      && w.clients[d].phase.answer.Result? && !w.clients[d].phase.answer.result.status.ConflictingPush?
    ensures var w := Run(EMPTY, steps);
      var x, y := w.clients[c].phase.answer.result, w.clients[d].phase.answer.result;
      && x.eventIds == y.eventIds && x.erasureIds == y.erasureIds && x.lastSequence == y.lastSequence
      && w.clients[c].request.fingerprint == w.clients[d].request.fingerprint
  {
    var w := Run(EMPTY, steps);
    var r := w.clients[c].request;
    AnswersNameTheRecord(steps, c);
    AnswersNameTheRecord(steps, d);
    OneRecordPerKey(steps, r.zone, r.key);
    var a :| Keeps(w.db, a, r.zone, r.key) && Names(w.clients[c].phase.answer.result, a, w.db.records[a].sequence);
    var b :| Keeps(w.db, b, r.zone, r.key) && Names(w.clients[d].phase.answer.result, b, w.db.records[b].sequence);
    assert a == b;
  }

  /** At most one request per key is told `accepted`; every other success is told `replay`. */
  lemma AcceptedOnce(steps: seq<Step>, c: ClientId, d: ClientId)
    requires var w := Run(EMPTY, steps);
      && c in w.clients && d in w.clients && w.clients[c].phase.Answered? && w.clients[d].phase.Answered?
      && At(w.clients[c].request) == At(w.clients[d].request)
      && IsAccepted(w.clients[c].phase.answer) && IsAccepted(w.clients[d].phase.answer)
    ensures c == d
  {
    ReachableWorldsAreRight(steps);
    assert ClientOk(Run(EMPTY, steps), c) && ClientOk(Run(EMPTY, steps), d);
  }

  /** The request that committed this key has its record stored under its row, and is told so once it is answered. */
  ghost predicate CommitterOk(w: World, at: (ZoneId, Key)) {
    && at in w.committer && w.committer[at] in w.clients && at in w.db.requests
    && var client := w.clients[w.committer[at]];
       && At(client.request) == at && Validate(client.request).None?
       && w.db.requests[at].fingerprint == client.request.fingerprint
       && Keeps(w.db, RefOf(client.request), at.0, at.1)
       && match client.phase
          case Batched(_) => true
          case Answered(answer) => answer.Result? && !answer.result.status.ConflictingPush?
          case _ => false
  }

  ghost predicate CommittersOk(w: World) {
    forall at {:trigger CommitterOk(w, at)} :: at in w.committer ==> CommitterOk(w, at)
  }

  lemma CommitterStep(w: World, s: Step, at: (ZoneId, Key))
    requires WorldInv(w) && CommittersOk(w) && at in Apply(w, s).committer
    ensures CommitterOk(Apply(w, s), at)
  {
    ApplyKeeps(w, s);
    if at in w.committer {
      assert CommitterOk(w, at) && RequestOk(w.db, at);
      assert ClientOk(w, w.committer[at]);
    }
  }

  lemma {:induction false} CommittersStayOk(steps: seq<Step>)
    ensures CommittersOk(Run(EMPTY, steps))
  {
    if steps != [] {
      var prior := Run(EMPTY, steps[..|steps| - 1]);
      CommittersStayOk(steps[..|steps| - 1]);
      ReachableWorldsAreRight(steps[..|steps| - 1]);
      forall at | at in Run(EMPTY, steps).committer ensures CommitterOk(Run(EMPTY, steps), at) {
        CommitterStep(prior, steps[|steps| - 1], at);
      }
    }
  }

  /**
   * A request whose batch committed is told so when it is answered, even when the batch reported an error: its
   * answer is a success that names the record it pushed, with the sequence stored on it.
   */
  lemma CommitterIsTold(steps: seq<Step>, c: ClientId)
    requires var w := Run(EMPTY, steps);
      && c in w.clients && w.clients[c].phase.Answered?
      && At(w.clients[c].request) in w.committer && w.committer[At(w.clients[c].request)] == c
    ensures var w := Run(EMPTY, steps); var r, answer := w.clients[c].request, w.clients[c].phase.answer;
      && answer.Result? && !answer.result.status.ConflictingPush?
      && Validate(r).None? && Keeps(w.db, RefOf(r), r.zone, r.key)
      && Names(answer.result, RefOf(r), w.db.records[RefOf(r)].sequence)
  {
    var w := Run(EMPTY, steps);
    var r := w.clients[c].request;
    CommittersStayOk(steps);
    assert CommitterOk(w, At(r));
    AnswersNameTheRecord(steps, c);
    OneRecordPerKey(steps, r.zone, r.key);
    var ref :| Keeps(w.db, ref, r.zone, r.key)
      && Names(w.clients[c].phase.answer.result, ref, w.db.records[ref].sequence);
    assert ref == RefOf(r);
  }

  lemma {:induction false} LaterRunsExtend(w: World, steps: seq<Step>)
    requires WorldInv(w)
    ensures Extends(Run(w, steps).db, w.db)
  {
    if steps != [] {
      var prior := Run(w, steps[..|steps| - 1]);
      LaterRunsExtend(w, steps[..|steps| - 1]);
      RunKeeps(w, steps[..|steps| - 1]);
      ApplyKeeps(prior, steps[|steps| - 1]);
      ExtendsTransitive(Run(w, steps).db, prior.db, w.db);
    }
  }

  lemma ExtendsTransitive(c: Db, b: Db, a: Db)
    requires Extends(c, b) && Extends(b, a)
    ensures Extends(c, a)
  {
    forall ref | ref in c.records && ref !in a.records ensures c.records[ref].sequence > Counter(a, ref.zone) {
      assert Counter(a, ref.zone) <= Counter(b, ref.zone);
    }
  }

  /**
   * Retrying is safe: if a push was committed, whatever its batch reported, then after any number of
   * other steps a retry with the same key and fingerprint is answered with the ids and sequence stored by
   * the first, and changes nothing; one with another fingerprint is refused.
   */
  lemma RetryReplays(w: World, r: PushRequest, later: seq<Step>, retry: PushRequest, outcome: Outcome)
    requires WorldInv(w) && Validate(r).None? && !Violates(w.db, r)
    requires Validate(retry).None? && At(retry) == At(r)
    ensures var db := Run(w.(db := Committed(w.db, r)), later).db;
      && PushAlone(db, retry, outcome).0 == db
      && PushAlone(db, retry, outcome).1 ==
           if retry.fingerprint == r.fingerprint then
             var first := AcceptedResult(r, Counter(w.db, r.zone) + 1);
             Result(first.(requestId := retry.requestId, status := ReplayedPush))
           else Result(PushResult(retry.requestId, ConflictingPush, [], [], None))
  {
    var v := w.(db := Committed(w.db, r));
    CommitKeepsTables(w.db, r);
    CommitExtends(w.db, r);
    forall c | c in v.clients ensures ClientOk(v, c) {
      assert ClientOk(w, c);
      ExtensionKeepsClients(w, v, c);
    }
    LaterRunsExtend(v, later);
  }
}
