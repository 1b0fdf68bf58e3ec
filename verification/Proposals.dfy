/** The proposal table and the pipeline run that fills it. Rows are in insertion order; an id is the tuple it hashes. */
module Proposals {
  import opened Wrappers
  import opened ProposalChecks
  import Ordering

  datatype ProposalId = ProposalId(
    zone: int, source: int, packDigest: int, kind: Kind, statement: string, citations: seq<Citation>, ordinal: nat)

  datatype Row = Row(
    id: ProposalId, candidate: Candidate, citeOk: bool, secretOk: bool, gate: Gate, createdAt: int,
    materialized: Option<int>, claim: Option<int>)

  type IdOrder = (ProposalId, ProposalId) -> bool

  datatype RunInput = RunInput(
    zone: int, source: int, packDigest: int, view: string, candidates: seq<Candidate>,
    autoPromote: bool, holdFirst: bool, now: int)

  // ----- the table -----

  /** `getAgenticProposal` */
  function Get(rows: seq<Row>, id: ProposalId): Option<Row> {
    if rows == [] then None
    else if rows[|rows| - 1].id == id then Some(rows[|rows| - 1])
    else Get(rows[..|rows| - 1], id)
  }

  /** `putAgenticProposal`: the first writer of an id wins. */
  function Put(rows: seq<Row>, row: Row): seq<Row> {
    if Get(rows, row.id).Some? then rows else rows + [row]
  }

  function Stored(rows: seq<Row>, row: Row): Row {
    if Get(rows, row.id).Some? then Get(rows, row.id).value else row
  }

  function MarkRow(r: Row, id: ProposalId, event: int, claim: Option<int>): Row {
    if r.id == id && r.materialized.None? then r.(materialized := Some(event), claim := claim) else r
  }

  /** The row of this id is updated. */
  function Mark(rows: seq<Row>, id: ProposalId, event: int, claim: Option<int>): (r: seq<Row>)
    ensures |r| == |rows| && forall i :: 0 <= i < |rows| ==> r[i] == MarkRow(rows[i], id, event, claim)
  {
    if rows == [] then []
    else
      var n := |rows| - 1;
      Mark(rows[..n], id, event, claim) + [MarkRow(rows[n], id, event, claim)]
  }

  /** `markProposalMaterialized` writes only to a proposal that is not materialized yet. */
  function MarkOnce(rows: seq<Row>, id: ProposalId, event: int, claim: Option<int>): seq<Row> {
    if Get(rows, id).Some? && Get(rows, id).value.materialized.None? then Mark(rows, id, event, claim) else rows
  }

  // ----- recent promotes -----

  const RECENT_LIMIT := 200

  predicate PromotedIn(r: Row, zone: int) { r.id.zone == zone && r.gate.verdict.Promote? }

  function Promotes(rows: seq<Row>, zone: int): seq<Row> {
    if rows == [] then []
    else
      var n := |rows| - 1;
      Promotes(rows[..n], zone) + (if PromotedIn(rows[n], zone) then [rows[n]] else [])
  }

  /** `ORDER BY created_at DESC, proposal_id DESC` */
  predicate Newer(before: IdOrder, a: Row, b: Row) {
    a.createdAt > b.createdAt || (a.createdAt == b.createdAt && before(b.id, a.id))
  }

  function NewerBy(before: IdOrder): (Row, Row) -> bool { (a, b) => Newer(before, a, b) }

  function NewestFirst(rows: seq<Row>, zone: int, before: IdOrder): seq<Row> {
    Ordering.SortBy(Promotes(rows, zone), NewerBy(before))
  }

  /** The 200 most recent promotes of a zone. */
  function Recent(rows: seq<Row>, zone: int, before: IdOrder): seq<Row> {
    Ordering.Take(NewestFirst(rows, zone, before), RECENT_LIMIT)
  }

  function KeyOf(rules: Rules, r: Row): string { rules.normalize(r.candidate.statement) }

  function Keys(rules: Rules, rows: seq<Row>): set<string> {
    if rows == [] then {}
    else
      var n := |rows| - 1;
      Keys(rules, rows[..n]) + (if KeyOf(rules, rows[n]) != "" then {KeyOf(rules, rows[n])} else {})
  }

  // ----- one run -----

  datatype Progress = Progress(
    rows: seq<Row>, promoted: set<string>, recent: set<string>, ordinal: nat, written: seq<Row>)

  /** `makeProposalId` */
  function MakeId(input: RunInput, c: Candidate, ordinal: nat): ProposalId {
    ProposalId(input.zone, input.source, input.packDigest, c.kind, c.statement, c.citations, ordinal)
  }

  /** The gate's verdict, held back when the statement was promoted in this run or recently. */
  function HoldDuplicate(g: Gate, key: string, promoted: set<string>, recent: set<string>): Gate {
    if !g.verdict.Promote? then g
    else if key in promoted then Gate(Hold, g.reasons + [NearDuplicateStatement])
    else if key in recent then Gate(Hold, g.reasons + [NearDuplicateRecent])
    else g
  }

  function RowFor(
    rules: Rules, input: RunInput, c: Candidate, ordinal: nat, promoted: set<string>, recent: set<string>): Row
  {
    var citeOk, secretOk := CiteOk(rules, c, input.view), SecretOk(rules, c, input.view);
    var g := EvaluateGate(rules, c, citeOk, secretOk, input.autoPromote, input.holdFirst);
    var gate := HoldDuplicate(g, rules.normalize(c.statement), promoted, recent);
    Row(MakeId(input, c, ordinal), c, citeOk, secretOk, gate, input.now, None, None)
  }

  function PromotedKey(rules: Rules, row: Row): set<string> {
    if row.gate.verdict.Promote? then {KeyOf(rules, row)} else {}
  }

  function Consider(rules: Rules, input: RunInput, p: Progress, c: Candidate): Progress {
    if !rules.keeps(c, input.view) then p
    else
      var row := RowFor(rules, input, c, p.ordinal + 1, p.promoted, p.recent);
      var key := PromotedKey(rules, row);
      Progress(Put(p.rows, row), p.promoted + key, p.recent + key, p.ordinal + 1, p.written + [Stored(p.rows, row)])
  }

  function ConsiderAll(rules: Rules, input: RunInput, p: Progress, candidates: seq<Candidate>): Progress {
    if candidates == [] then p
    else
      var n := |candidates| - 1;
      Consider(rules, input, ConsiderAll(rules, input, p, candidates[..n]), candidates[n])
  }

  function Begin(rules: Rules, rows: seq<Row>, input: RunInput, before: IdOrder): Progress {
    Progress(rows, {}, Keys(rules, Recent(rows, input.zone, before)), 0, [])
  }

  /** The candidate loop of `runAgenticProposalPipeline`. */
  function Run(rules: Rules, before: IdOrder, rows: seq<Row>, input: RunInput): Progress {
    ConsiderAll(rules, input, Begin(rules, rows, input, before), input.candidates)
  }

  class ProposalStore {
    const rules: Rules
    const before: IdOrder
    var rows: seq<Row>

    constructor (rules: Rules, before: IdOrder)
      ensures this.rules == rules && this.before == before && rows == []
    {
      this.rules, this.before, rows := rules, before, [];
    }

    method PutProposal(row: Row) returns (stored: Row)
      modifies this
      ensures rows == Put(old(rows), row) && stored == Stored(old(rows), row)
    {
      var existing := Get(rows, row.id);
      if existing.Some? {
        return existing.value;
      }
      rows := rows + [row];
      return row;
    }

    /** Answers whether the proposal is now materialized as this event. */
    method MarkMaterialized(id: ProposalId, event: int, claim: Option<int>) returns (done: bool)
      modifies this
      ensures rows == MarkOnce(old(rows), id, event, claim)
      ensures done <==> Get(old(rows), id).Some? && Get(old(rows), id).value.materialized in {None, Some(event)}
    {
      var existing := Get(rows, id);
      if existing.None? {
        return false;
      }
      if existing.value.materialized.Some? {
        return existing.value.materialized.value == event;
      }
      rows := Mark(rows, id, event, claim);
      return true;
    }

    method RecentPromoteKeys(zone: int) returns (keys: set<string>)
      ensures keys == Keys(rules, Recent(rows, zone, before))
    {
      keys := {};
      var recent := Recent(rows, zone, before);
      for i := 0 to |recent|
        invariant keys == Keys(rules, recent[..i])
      {
        assert recent[..i + 1][..i] == recent[..i];
        var key := KeyOf(rules, recent[i]);
        if |key| > 0 {
          keys := keys + {key};
        }
      }
      assert recent[..|recent|] == recent;
    }

    /** Verifies a candidate, gates it, and holds a near duplicate. */
    method Judge(input: RunInput, c: Candidate, ordinal: nat, promoted: set<string>, recent: set<string>)
      returns (row: Row)
      ensures row == RowFor(rules, input, c, ordinal, promoted, recent)
    {
      var citeOk, secretOk := VerifyCandidate(rules, c, input.view);
      var gate := EvaluateGate(rules, c, citeOk, secretOk, input.autoPromote, input.holdFirst);
      if gate.verdict.Promote? {
        var key := rules.normalize(c.statement);
        if key in promoted {
          gate := Gate(Hold, gate.reasons + [NearDuplicateStatement]);
        } else if key in recent {
          gate := Gate(Hold, gate.reasons + [NearDuplicateRecent]);
        }
      }
      return Row(MakeId(input, c, ordinal), c, citeOk, secretOk, gate, input.now, None, None);
    }

    /** One turn of the candidate loop. */
    method ConsiderCandidate(input: RunInput, c: Candidate, p: Progress) returns (next: Progress)
      requires p.rows == rows
      modifies this
      ensures next == Consider(rules, input, p, c) && rows == next.rows
    {
      if !rules.keeps(c, input.view) {
        return p;
      }
      var row := Judge(input, c, p.ordinal + 1, p.promoted, p.recent);
      var promotedKeys, recentKeys := p.promoted, p.recent;
      if row.gate.verdict.Promote? {
        promotedKeys, recentKeys := promotedKeys + {KeyOf(rules, row)}, recentKeys + {KeyOf(rules, row)};
      }
      var stored := PutProposal(row);
      next := Progress(rows, promotedKeys, recentKeys, p.ordinal + 1, p.written + [stored]);
    }

    method RunPipeline(input: RunInput) returns (proposals: seq<Row>)
      modifies this
      ensures rows == Run(rules, before, old(rows), input).rows
      ensures proposals == Run(rules, before, old(rows), input).written
    {
      ghost var begin := Begin(rules, rows, input, before);
      var recentKeys := RecentPromoteKeys(input.zone);
      var p := Progress(rows, {}, recentKeys, 0, []);
      for i := 0 to |input.candidates|
        invariant rows == p.rows && p == ConsiderAll(rules, input, begin, input.candidates[..i])
      {
        assert input.candidates[..i + 1][..i] == input.candidates[..i];
        p := ConsiderCandidate(input, input.candidates[i], p);
      }
      assert input.candidates[..|input.candidates|] == input.candidates;
      return p.written;
    }
  }
}
