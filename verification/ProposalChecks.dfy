/**
 * What a proposed statement must pass before it is promoted: its citations, its grounding in them, and the
 * gate. Text normalisation, trimming, tokens, the secret pattern and the quality filter are parameters.
 */
module ProposalChecks {
  import opened Ordering

  datatype Kind = Decision | Constraint | Preference | Procedure | FactCandidate | OpenQuestion

  datatype Citation = Citation(quote: string, start: int, end: int)

  datatype Candidate = Candidate(kind: Kind, statement: string, citations: seq<Citation>, confidence: real)

  datatype Rules = Rules(
    normalize: string -> string, trim: string -> string, secretish: string -> bool,
    tokens: string -> seq<string>, keeps: (Candidate, string) -> bool)

  // ----- citations -----

  predicate OccursAt(text: string, part: string, i: int) {
    0 <= i <= |text| - |part| && text[i..i + |part|] == part
  }

  predicate Includes(text: string, part: string) {
    exists i :: 0 <= i <= |text| - |part| && OccursAt(text, part, i)
  }

  /** `citationInPack` */
  predicate CitationInPack(rules: Rules, c: Citation, pack: string) {
    var q := rules.trim(c.quote);
    if q == "" then false
    else if Includes(pack, q) then true
    else if c.start >= 0 && c.end > c.start && c.end <= |pack| then
      pack[c.start..c.end] == q || Includes(pack, q)
    else false
  }

  /** Offsets decide nothing: a citation is in the pack exactly when its trimmed quote occurs there. */
  lemma OffsetsDecideNothing(rules: Rules, c: Citation, pack: string)
    ensures CitationInPack(rules, c, pack) <==> rules.trim(c.quote) != "" && Includes(pack, rules.trim(c.quote))
  {
    var q := rules.trim(c.quote);
    if c.start >= 0 && c.end > c.start && c.end <= |pack| && pack[c.start..c.end] == q {
      assert OccursAt(pack, q, c.start);
    }
  }

  // ----- grounding -----

  datatype Grounding = TooShort | NoQuote | TooLong | Containment | EmptyTokens | Overlap | Ungrounded {
    predicate Ok() { this == Containment || this == Overlap }
  }

  function Quotes(rules: Rules, citations: seq<Citation>): seq<string> {
    if citations == [] then []
    else
      var n := |citations| - 1;
      var q := rules.trim(citations[n].quote);
      Quotes(rules, citations[..n]) + (if q == "" then [] else [q])
  }

  function LongestNormal(rules: Rules, quotes: seq<string>): nat {
    if quotes == [] then 0
    else
      var rest, last := LongestNormal(rules, quotes[..|quotes| - 1]), |rules.normalize(quotes[|quotes| - 1])|;
      if rest < last then last else rest
  }

  predicate Contains(rules: Rules, stmt: string, quote: string) {
    var nq := rules.normalize(quote);
    nq != "" && (stmt == nq || Includes(nq, stmt) || Includes(stmt, nq))
  }

  function QuoteTokens(rules: Rules, quotes: seq<string>): set<string> {
    if quotes == [] then {}
    else
      QuoteTokens(rules, quotes[..|quotes| - 1])
      + Elements(rules.tokens(rules.normalize(quotes[|quotes| - 1])))
  }

  /** How many tokens, counted as often as they occur, are in the set. */
  function CountIn(tokens: seq<string>, s: set<string>): nat {
    if tokens == [] then 0
    else CountIn(tokens[..|tokens| - 1], s) + (if tokens[|tokens| - 1] in s then 1 else 0)
  }

  /** Jaccard overlap of at least 0.35, or 0.6 of the statement's tokens quoted. */
  predicate OverlapEnough(inter: nat, statementTokens: nat, union: nat) {
    20 * inter >= 7 * union || 5 * inter >= 3 * statementTokens
  }

  /** `statementGroundedInCitations` */
  function Ground(rules: Rules, statement: string, citations: seq<Citation>): Grounding {
    var stmt, quotes := rules.normalize(statement), Quotes(rules, citations);
    if |stmt| < 8 then TooShort
    else if quotes == [] then NoQuote
    else if |stmt| > LongestNormal(rules, quotes) * 3 then TooLong
    else if exists i :: 0 <= i < |quotes| && Contains(rules, stmt, quotes[i]) then Containment
    else
      var own, quoted := rules.tokens(stmt), QuoteTokens(rules, quotes);
      if own == [] || quoted == {} then EmptyTokens
      else if OverlapEnough(CountIn(own, quoted), |own|, |Elements(own) + quoted|) then Overlap
      else Ungrounded
  }

  method CollectQuotes(rules: Rules, citations: seq<Citation>) returns (quotes: seq<string>)
    ensures quotes == Quotes(rules, citations)
  {
    quotes := [];
    for i := 0 to |citations|
      invariant quotes == Quotes(rules, citations[..i])
    {
      assert citations[..i + 1][..i] == citations[..i];
      var q := rules.trim(citations[i].quote);
      if q != "" {
        quotes := quotes + [q];
      }
    }
    assert citations[..|citations|] == citations;
  }

  method MeasureQuotes(rules: Rules, stmt: string, quotes: seq<string>)
    returns (longest: nat, contained: bool, quoted: set<string>)
    ensures longest == LongestNormal(rules, quotes) && quoted == QuoteTokens(rules, quotes)
    ensures contained <==> exists i :: 0 <= i < |quotes| && Contains(rules, stmt, quotes[i])
  {
    longest, contained, quoted := 0, false, {};
    for i := 0 to |quotes|
      invariant longest == LongestNormal(rules, quotes[..i]) && quoted == QuoteTokens(rules, quotes[..i])
      invariant contained <==> exists j :: 0 <= j < i && Contains(rules, stmt, quotes[j])
    {
      assert quotes[..i + 1][..i] == quotes[..i];
      var nq := rules.normalize(quotes[i]);
      longest := if longest < |nq| then |nq| else longest;
      contained := contained || Contains(rules, stmt, quotes[i]);
      quoted := quoted + Elements(rules.tokens(nq));
    }
    assert quotes[..|quotes|] == quotes;
  }

  /** `statementGroundedInCitations` with its overlap loop. */
  method StatementGrounded(rules: Rules, statement: string, citations: seq<Citation>) returns (g: Grounding)
    ensures g == Ground(rules, statement, citations)
  {
    var stmt := rules.normalize(statement);
    if |stmt| < 8 {
      return TooShort;
    }
    var quotes := CollectQuotes(rules, citations);
    if quotes == [] {
      return NoQuote;
    }
    var longest, contained, quoted := MeasureQuotes(rules, stmt, quotes);
    if |stmt| > longest * 3 {
      return TooLong;
    }
    if contained {
      return Containment;
    }
    var own := rules.tokens(stmt);
    if own == [] || quoted == {} {
      return EmptyTokens;
    }
    var inter := 0;
    for i := 0 to |own|
      invariant inter == CountIn(own[..i], quoted)
    {
      assert own[..i + 1][..i] == own[..i];
      if own[i] in quoted {
        inter := inter + 1;
      }
    }
    assert own[..|own|] == own;
    return if OverlapEnough(inter, |own|, |Elements(own) + quoted|) then Overlap else Ungrounded;
  }

  // ----- verification -----

  /** Every citation before `n` is in the pack. */
  predicate CitedBefore(rules: Rules, c: Candidate, pack: string, n: nat)
    requires n <= |c.citations|
  {
    forall i :: 0 <= i < n ==> CitationInPack(rules, c.citations[i], pack)
  }

  predicate CiteOk(rules: Rules, c: Candidate, pack: string) {
    && c.citations != [] && CitedBefore(rules, c, pack, |c.citations|)
    && Ground(rules, c.statement, c.citations).Ok()
  }

  /** Quotes after the first one missing from the pack are not looked at. */
  predicate SecretOk(rules: Rules, c: Candidate, pack: string) {
    && !rules.secretish(c.statement)
    && forall i ::
         0 <= i < |c.citations| && CitedBefore(rules, c, pack, i + 1) ==> !rules.secretish(c.citations[i].quote)
  }

  predicate NoSecretBefore(rules: Rules, c: Candidate, n: nat)
    requires n <= |c.citations|
  {
    forall i :: 0 <= i < n ==> !rules.secretish(c.citations[i].quote)
  }

  /** `verifyExtractCandidate` */
  method VerifyCandidate(rules: Rules, c: Candidate, pack: string) returns (citeOk: bool, secretOk: bool)
    ensures citeOk <==> CiteOk(rules, c, pack)
    ensures secretOk <==> SecretOk(rules, c, pack)
  {
    citeOk, secretOk := c.citations != [], !rules.secretish(c.statement);
    for i := 0 to |c.citations|
      invariant citeOk <==> c.citations != []
      invariant CitedBefore(rules, c, pack, i)
      invariant secretOk == (!rules.secretish(c.statement) && NoSecretBefore(rules, c, i))
    {
      if !CitationInPack(rules, c.citations[i], pack) {
        assert forall j :: i < j <= |c.citations| ==> !CitedBefore(rules, c, pack, j);
        return false, secretOk;
      }
      if rules.secretish(c.citations[i].quote) {
        secretOk := false;
      }
    }
    if citeOk {
      var g := StatementGrounded(rules, c.statement, c.citations);
      citeOk := g.Ok();
    }
  }

  /** A statement that verifies has a normalized form of at least eight characters. */
  lemma VerifiedKeyIsLong(rules: Rules, c: Candidate, pack: string)
    requires CiteOk(rules, c, pack)
    ensures |rules.normalize(c.statement)| >= 8
  {
  }

  /** The early stop hides nothing that can be promoted: what passes both checks holds no secret anywhere. */
  lemma CleanHoldsNoSecret(rules: Rules, c: Candidate, pack: string)
    requires CiteOk(rules, c, pack) && SecretOk(rules, c, pack)
    ensures !rules.secretish(c.statement)
    ensures forall q :: q in c.citations ==> !rules.secretish(q.quote)
  {
    forall q | q in c.citations ensures !rules.secretish(q.quote) {
      var i :| 0 <= i < |c.citations| && c.citations[i] == q;
      assert CitedBefore(rules, c, pack, i + 1);
    }
  }

  /** What grounding guarantees: the statement is at most three times its longest quote, and shares text with one. */
  lemma GroundedMeans(rules: Rules, statement: string, citations: seq<Citation>)
    requires Ground(rules, statement, citations).Ok()
    ensures var stmt, quotes := rules.normalize(statement), Quotes(rules, citations);
      && 8 <= |stmt| <= 3 * LongestNormal(rules, quotes)
      && ((exists i :: 0 <= i < |quotes| && Contains(rules, stmt, quotes[i]))
          || exists t :: t in rules.tokens(stmt) && t in QuoteTokens(rules, quotes))
  {
    var stmt, quotes := rules.normalize(statement), Quotes(rules, citations);
    var own, quoted := rules.tokens(stmt), QuoteTokens(rules, quotes);
    if Ground(rules, statement, citations) == Overlap {
      SomeShared(own, quoted);
      var t :| t in quoted;
      assert t in Elements(own) + quoted;
    }
  }

  lemma {:induction false} SomeShared(tokens: seq<string>, s: set<string>)
    ensures CountIn(tokens, s) > 0 ==> exists t :: t in tokens && t in s
  {
    if tokens != [] {
      var n := |tokens| - 1;
      SomeShared(tokens[..n], s);
      assert tokens == tokens[..n] + [tokens[n]];
    }
  }

  // ----- the gate -----

  datatype Verdict = Promote | Hold | Reject

  datatype Reason =
    | SecretLikeMaterial | MissingOrFailedCitation | StatementTooShort
    | OpenQuestionSideChannel | ProcedureHoldBiased | FactCandidateNotAllowed | KindNotAllowed
    | PromoteWhenVerified | AllowlistKind | CiteClean | E5Clean
    | HoldConfidenceOrFeatures | HoldFirstOverride
    | NearDuplicateStatement | NearDuplicateRecent

  datatype Gate = Gate(verdict: Verdict, reasons: seq<Reason>)

  predicate Usable(k: Kind) { k.Decision? || k.Constraint? || k.Preference? }

  /** `evaluateAgenticGate` */
  function EvaluateGate(
    rules: Rules, c: Candidate, citeOk: bool, secretOk: bool, autoPromote: bool, holdFirst: bool): Gate
  {
    if !secretOk then Gate(Reject, [SecretLikeMaterial])
    else if !citeOk || c.citations == [] then Gate(Reject, [MissingOrFailedCitation])
    else if |rules.trim(c.statement)| < 8 then Gate(Reject, [StatementTooShort])
    else if c.kind.OpenQuestion? then Gate(Hold, [OpenQuestionSideChannel])
    else if c.kind.Procedure? then Gate(Hold, [ProcedureHoldBiased])
    else if c.kind.FactCandidate? then Gate(Hold, [FactCandidateNotAllowed])
    else
      var promoteEnabled := if holdFirst then false else autoPromote;
      if promoteEnabled && Usable(c.kind) && citeOk && secretOk && c.confidence >= 0.55 then
        Gate(Promote, [PromoteWhenVerified, AllowlistKind, CiteClean, E5Clean])
      else if !Usable(c.kind) then Gate(Hold, [KindNotAllowed])
      else Gate(Hold, [if promoteEnabled then HoldConfidenceOrFeatures else HoldFirstOverride])
  }

  /** Exactly what is promoted, exactly what is rejected, and that no kind falls through to the last guard. */
  lemma GateDecides(rules: Rules, c: Candidate, citeOk: bool, secretOk: bool, autoPromote: bool, holdFirst: bool)
    ensures var g := EvaluateGate(rules, c, citeOk, secretOk, autoPromote, holdFirst);
      var clean := secretOk && citeOk && c.citations != [] && |rules.trim(c.statement)| >= 8;
      && (g.verdict == Reject <==> !clean)
      && (g.verdict == Promote <==> clean && Usable(c.kind) && c.confidence >= 0.55 && autoPromote && !holdFirst)
      && KindNotAllowed !in g.reasons
  {
  }
}
