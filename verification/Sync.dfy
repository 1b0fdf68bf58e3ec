/**
 * The sync worker's push protocol: the tables, the atomic batch of a push statement by statement, and
 * the answers. Zones, keys, record ids, request ids, fingerprints and recorded times are opaque values
 * of which only equality and order matter, so they are integers.
 */
module Sync {
  import opened Wrappers

  type ZoneId = int
  type Key = int
  type RecordId = int
  type Time = int

  datatype Kind = EventRecord | ErasureRecord

  /** One event or erasure as pushed; `zone` is the trust zone it names itself. */
  datatype Payload = Payload(id: RecordId, zone: ZoneId, recordedAt: Time, body: int)

  datatype PushRequest = PushRequest(
    requestId: int, zone: ZoneId, key: Key, fingerprint: int, events: seq<Payload>, erasures: seq<Payload>)

  datatype PushStatus = AcceptedPush | ReplayedPush | ConflictingPush

  datatype PushResult = PushResult(
    requestId: int, status: PushStatus, eventIds: seq<RecordId>, erasureIds: seq<RecordId>, lastSequence: Option<nat>)

  datatype RequestStatus = PendingRequest | AcceptedRequest

  datatype RequestRow = RequestRow(requestId: int, fingerprint: int, status: RequestStatus, result: Option<PushResult>)

  /** A row of `canonical_events` or of `erasure_ledger`; `stamp` is the sequence written into its JSON. */
  datatype Stored = Stored(sequence: nat, key: Key, recordedAt: Time, body: int, stamp: nat)

  /** The primary key of a record: its table, zone and id. */
  datatype Ref = Ref(kind: Kind, zone: ZoneId, id: RecordId)

  datatype Db = Db(
    requests: map<(ZoneId, Key), RequestRow>, counters: map<ZoneId, nat>, records: map<Ref, Stored>)

  datatype PushError = NotOneRecord | ZoneDiffers

  /** `validateSingleRecordPush` */
  function Validate(r: PushRequest): Option<PushError> {
    if |r.events| + |r.erasures| != 1 then Some(NotOneRecord)
    else if |r.events| == 1 then (if r.events[0].zone != r.zone then Some(ZoneDiffers) else None)
    else if r.erasures[0].zone != r.zone then Some(ZoneDiffers)
    else None
  }

  function KindOf(r: PushRequest): Kind { if r.events != [] then EventRecord else ErasureRecord }

  function PayloadOf(r: PushRequest): Payload
    requires Validate(r).None?
  {
    if r.events != [] then r.events[0] else r.erasures[0]
  }

  function RefOf(r: PushRequest): Ref
    requires Validate(r).None?
  {
    Ref(KindOf(r), r.zone, PayloadOf(r).id)
  }

  function Counter(db: Db, zone: ZoneId): nat { if zone in db.counters then db.counters[zone] else 0 }

  /** `UNIQUE (trust_zone_id, zone_sequence)`, per table. */
  predicate SequenceTaken(db: Db, kind: Kind, zone: ZoneId, n: nat) {
    exists ref :: ref in db.records && ref.kind == kind && ref.zone == zone && db.records[ref].sequence == n
  }

  function AcceptedResult(r: PushRequest, n: nat): PushResult
    requires Validate(r).None?
  {
    var id := PayloadOf(r).id;
    PushResult(r.requestId, AcceptedPush, if r.events != [] then [id] else [], if r.events != [] then [] else [id],
      Some(n))
  }

  /** Whether the statements of the batch violate a constraint. */
  predicate Violates(db: Db, r: PushRequest)
    requires Validate(r).None?
  {
    || (r.zone, r.key) in db.requests
    || RefOf(r) in db.records
    || SequenceTaken(db, KindOf(r), r.zone, Counter(db, r.zone) + 1)
  }

  /** The tables after the batch of `acceptEvent` or `acceptErasure` commits. */
  function Committed(db: Db, r: PushRequest): Db
    requires Validate(r).None?
  {
    var n := Counter(db, r.zone) + 1;
    var p := PayloadOf(r);
    var row := RequestRow(r.requestId, r.fingerprint, AcceptedRequest, Some(AcceptedResult(r, n)));
    Db(db.requests[(r.zone, r.key) := row],
       db.counters[r.zone := n],
       db.records[RefOf(r) := Stored(n, r.key, p.recordedAt, p.body, n)])
  }

  // ----- answers -----

  datatype Answer =
    | Invalid(error: PushError)
    | Result(result: PushResult)
    | RowConflict
    | NotPersisted
    | InternalError

  /** `replayOrConflict` */
  function ReplayOrConflict(row: RequestRow, r: PushRequest): Answer {
    if row.fingerprint == r.fingerprint && row.result.Some? then
      Result(row.result.value.(requestId := r.requestId, status := ReplayedPush))
    else if row.fingerprint == r.fingerprint then Result(PushResult(r.requestId, ReplayedPush, [], [], None))
    else Result(PushResult(r.requestId, ConflictingPush, [], [], None))
  }

  /** What the database reports for a batch: done, or failed with or without a constraint message. */
  datatype Report = Done | ConstraintError | OtherError

  /** The answer after the batch, from a second read of the request row. */
  function AnswerAfter(db: Db, r: PushRequest, report: Report): Answer {
    var row := if (r.zone, r.key) in db.requests then Some(db.requests[(r.zone, r.key)]) else None;
    if report.Done? then
      if row.None? then NotPersisted
      else if row.value.result.Some? then Result(row.value.result.value)
      else Result(PushResult(row.value.requestId, AcceptedPush, [], [], None))
    else if row.Some? then ReplayOrConflict(row.value, r)
    else if report.ConstraintError? then RowConflict
    else InternalError
  }

  /**
   * What can happen to a batch that violates nothing: it commits, it commits but the caller sees an error,
   * or it is undone, perhaps by a constraint of a table outside this model.
   */
  datatype Outcome = Commits | CommitsButReportsError | Aborts | AbortsOnConstraint

  predicate Undone(o: Outcome) { o.Aborts? || o.AbortsOnConstraint? }

  function BatchDb(db: Db, r: PushRequest, outcome: Outcome): Db
    requires Validate(r).None?
  {
    if Violates(db, r) || Undone(outcome) then db else Committed(db, r)
  }

  function BatchReport(db: Db, r: PushRequest, outcome: Outcome): Report
    requires Validate(r).None?
  {
    if Violates(db, r) || outcome.AbortsOnConstraint? then ConstraintError
    else if outcome.Commits? then Done
    else OtherError
  }

  /** The database, as statements change it. */
  class SyncTables {
    var requests: map<(ZoneId, Key), RequestRow>
    var counters: map<ZoneId, nat>
    var records: map<Ref, Stored>

    ghost function Model(): Db
      reads this
    {
      Db(requests, counters, records)
    }

    constructor ()
      ensures Model() == Db(map[], map[], map[])
    {
      requests, counters, records := map[], map[], map[];
    }

    /**
     * The statements of `acceptEvent` and `acceptErasure` in order: claim the key with a pending row, bump
     * the zone counter, insert the stamped record, and write the result. A violated constraint stops the
     * batch and undoes it.
     */
    method AcceptRecord(r: PushRequest) returns (ok: bool)
      requires Validate(r).None?
      modifies this
      ensures ok <==> !Violates(old(Model()), r)
      ensures Model() == if ok then Committed(old(Model()), r) else old(Model())
    {
      var requests0, counters0, records0 := requests, counters, records;
      var at := (r.zone, r.key);
      if at in requests {
        return false;
      }
      requests := requests[at := RequestRow(r.requestId, r.fingerprint, PendingRequest, None)];
      counters := counters[r.zone := if r.zone in counters then counters[r.zone] + 1 else 1];
      var n := counters[r.zone];
      var p := PayloadOf(r);
      if RefOf(r) in records || SequenceTaken(Db(requests, counters, records), KindOf(r), r.zone, n) {
        requests, counters, records := requests0, counters0, records0;
        return false;
      }
      records := records[RefOf(r) := Stored(n, r.key, p.recordedAt, p.body, n)];
      requests := requests[at := requests[at].(
        status := AcceptedRequest, result := Some(AcceptedResult(r, counters[r.zone])))];
      return true;
    }

    /** `handlePush` when no other request comes between its steps. */
    method HandlePush(r: PushRequest, outcome: Outcome) returns (answer: Answer)
      modifies this
      ensures Model() == PushAlone(old(Model()), r, outcome).0
      ensures answer == PushAlone(old(Model()), r, outcome).1
    {
      var bad := Validate(r);
      if bad.Some? {
        return Invalid(bad.value);
      }
      var at := (r.zone, r.key);
      if at in requests {
        return ReplayOrConflict(requests[at], r);
      }
      var report := if outcome.AbortsOnConstraint? then ConstraintError else OtherError;
      if Violates(Db(requests, counters, records), r) || !Undone(outcome) {
        var ok := AcceptRecord(r);
        report := if !ok then ConstraintError else if outcome.Commits? then Done else OtherError;
      }
      return AnswerAfter(Db(requests, counters, records), r, report);
    }
  }

  /** One push from start to finish. */
  function PushAlone(db: Db, r: PushRequest, outcome: Outcome): (Db, Answer) {
    if Validate(r).Some? then (db, Invalid(Validate(r).value))
    else if (r.zone, r.key) in db.requests then (db, ReplayOrConflict(db.requests[(r.zone, r.key)], r))
    else
      var after := BatchDb(db, r, outcome);
      (after, AnswerAfter(after, r, BatchReport(db, r, outcome)))
  }
}
