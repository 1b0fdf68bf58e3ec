/**
 * What grounding, the gate and a run decide, and what a marking records, told from candidates, quotes and rows
 * alone.
 */
module ProposalContents {
  import opened Wrappers
  import opened Ordering
  import opened ProposalChecks
  import opened Proposals
  import opened ProposalHistory

  // ----- grounding -----

  /** The trimmed quote of some citation, if anything is left of it. */
  predicate Quoted(rules: Rules, citations: seq<Citation>, quote: string) {
    quote != "" && exists c :: c in citations && rules.trim(c.quote) == quote
  }

  /** One text occurs in the other, or they are the same. */
  ghost predicate Overlapping(a: string, b: string) {
    a == b || (exists i :: OccursAt(a, b, i)) || exists i :: OccursAt(b, a, i)
  }

  /** The statement and a quote contain one another once normalized. */
  ghost predicate Contained(rules: Rules, stmt: string, citations: seq<Citation>) {
    exists quote ::
      Quoted(rules, citations, quote) && rules.normalize(quote) != "" && Overlapping(stmt, rules.normalize(quote))
  }

  /** A token of some quote. */
  ghost predicate TokenQuoted(rules: Rules, citations: seq<Citation>, t: string) {
    exists quote :: Quoted(rules, citations, quote) && t in rules.tokens(rules.normalize(quote))
  }

  /** How many of the statement's tokens, with repeats, are tokens of quotes. */
  ghost function SharedTokens(rules: Rules, own: seq<string>, citations: seq<Citation>): nat {
    |set i | 0 <= i < |own| && TokenQuoted(rules, citations, own[i])|
  }

  /** The shared tokens are at least 0.35 of all different tokens, or at least 0.6 of the statement's. */
  ghost predicate SharesEnough(rules: Rules, own: seq<string>, citations: seq<Citation>, all: set<string>) {
    var shared := SharedTokens(rules, own, citations) as real;
    shared >= 0.35 * |all| as real || shared >= 0.6 * |own| as real
  }

  /** The tokens of the statement and of all quotes, each once. */
  ghost predicate AllTokens(rules: Rules, own: seq<string>, citations: seq<Citation>, all: set<string>) {
    forall t :: t in all <==> t in own || TokenQuoted(rules, citations, t)
  }

  /** There are tokens on both sides, and enough are shared. */
  ghost predicate TokensOverlap(rules: Rules, own: seq<string>, citations: seq<Citation>) {
    && own != [] && (exists t :: TokenQuoted(rules, citations, t))
    && exists all :: AllTokens(rules, own, citations, all) && SharesEnough(rules, own, citations, all)
  }

  /** Some quote is at least a third as long as the statement. */
  ghost predicate LongQuoted(rules: Rules, stmt: string, citations: seq<Citation>) {
    exists quote :: Quoted(rules, citations, quote) && |stmt| <= 3 * |rules.normalize(quote)|
  }

  ghost predicate Grounded(rules: Rules, statement: string, citations: seq<Citation>) {
    var stmt := rules.normalize(statement);
    var own := rules.tokens(stmt);
    && |stmt| >= 8
    && LongQuoted(rules, stmt, citations)
    && (|| Contained(rules, stmt, citations)
        || TokensOverlap(rules, own, citations))
  }

  lemma {:induction false} QuotesAre(rules: Rules, citations: seq<Citation>)
    ensures forall q :: q in Quotes(rules, citations) <==> Quoted(rules, citations, q)
  {
    if citations != [] {
      var n := |citations| - 1;
      assert citations == citations[..n] + [citations[n]];
      QuotesAre(rules, citations[..n]);
      forall q ensures Quoted(rules, citations, q) <==>
        Quoted(rules, citations[..n], q) || (q != "" && rules.trim(citations[n].quote) == q)
      {
        if q != "" && rules.trim(citations[n].quote) == q {
          assert citations[n] in citations;
        }
      }
    }
  }

  lemma {:induction false} LongestIs(rules: Rules, quotes: seq<string>)
    ensures forall q :: q in quotes ==> |rules.normalize(q)| <= LongestNormal(rules, quotes)
    ensures quotes != [] ==> exists q :: q in quotes && |rules.normalize(q)| == LongestNormal(rules, quotes)
  {
    if quotes != [] {
      var n := |quotes| - 1;
      assert quotes == quotes[..n] + [quotes[n]];
      LongestIs(rules, quotes[..n]);
      if n > 0 && LongestNormal(rules, quotes[..n]) >= |rules.normalize(quotes[n])| {
        var q :| q in quotes[..n] && |rules.normalize(q)| == LongestNormal(rules, quotes[..n]);
        assert q in quotes;
      } else {
        assert quotes[n] in quotes;
      }
    }
  }

  lemma {:induction false} QuoteTokensAre(rules: Rules, quotes: seq<string>, t: string)
    ensures t in QuoteTokens(rules, quotes) <==> exists q :: q in quotes && t in rules.tokens(rules.normalize(q))
  {
    if quotes != [] {
      var n := |quotes| - 1;
      assert quotes == quotes[..n] + [quotes[n]];
      QuoteTokensAre(rules, quotes[..n], t);
      if t in rules.tokens(rules.normalize(quotes[n])) {
        assert quotes[n] in quotes;
      }
    }
  }

  lemma TokensAreQuoted(rules: Rules, citations: seq<Citation>, t: string)
    ensures t in QuoteTokens(rules, Quotes(rules, citations)) <==> TokenQuoted(rules, citations, t)
  {
    QuotesAre(rules, citations);
    QuoteTokensAre(rules, Quotes(rules, citations), t);
  }

  lemma {:induction false} CountInIs(tokens: seq<string>, s: set<string>)
    ensures CountIn(tokens, s) == |set i | 0 <= i < |tokens| && tokens[i] in s|
  {
    if tokens != [] {
      var n := |tokens| - 1;
      CountInIs(tokens[..n], s);
      var before := set i | 0 <= i < n && tokens[..n][i] in s;
      var all := set i | 0 <= i < |tokens| && tokens[i] in s;
      assert all == before + if tokens[n] in s then {n} else {};
    }
  }

  lemma SharedIs(rules: Rules, own: seq<string>, citations: seq<Citation>)
    ensures SharedTokens(rules, own, citations) == CountIn(own, QuoteTokens(rules, Quotes(rules, citations)))
  {
    var quoted := QuoteTokens(rules, Quotes(rules, citations));
    CountInIs(own, quoted);
    forall i | 0 <= i < |own| ensures own[i] in quoted <==> TokenQuoted(rules, citations, own[i]) {
      TokensAreQuoted(rules, citations, own[i]);
    }
    assert (set i | 0 <= i < |own| && TokenQuoted(rules, citations, own[i]))
      == set i | 0 <= i < |own| && own[i] in quoted;
  }

  lemma ContainsIff(rules: Rules, stmt: string, q: string)
    ensures Contains(rules, stmt, q) <==> rules.normalize(q) != "" && Overlapping(stmt, rules.normalize(q))
  {
    IncludesIff(rules.normalize(q), stmt);
    IncludesIff(stmt, rules.normalize(q));
  }

  lemma SomeQuoteContains(rules: Rules, stmt: string, citations: seq<Citation>) returns (i: nat)
    requires Contained(rules, stmt, citations)
    ensures i < |Quotes(rules, citations)| && Contains(rules, stmt, Quotes(rules, citations)[i])
  {
    var quotes := Quotes(rules, citations);
    QuotesAre(rules, citations);
    var q :| Quoted(rules, citations, q) && rules.normalize(q) != "" && Overlapping(stmt, rules.normalize(q));
    ContainsIff(rules, stmt, q);
    assert q in quotes;
    i :| 0 <= i < |quotes| && quotes[i] == q;
  }

  lemma QuoteIsContained(rules: Rules, stmt: string, citations: seq<Citation>, i: nat)
    requires i < |Quotes(rules, citations)| && Contains(rules, stmt, Quotes(rules, citations)[i])
    ensures Contained(rules, stmt, citations)
  {
    var q := Quotes(rules, citations)[i];
    QuotesAre(rules, citations);
    ContainsIff(rules, stmt, q);
    assert q in Quotes(rules, citations);
    assert Quoted(rules, citations, q) && rules.normalize(q) != "" && Overlapping(stmt, rules.normalize(q));
  }

  predicate SomeContains(rules: Rules, stmt: string, quotes: seq<string>) {
    exists i :: 0 <= i < |quotes| && Contains(rules, stmt, quotes[i])
  }

  lemma ContainedIff(rules: Rules, stmt: string, citations: seq<Citation>)
    ensures Contained(rules, stmt, citations) <==> SomeContains(rules, stmt, Quotes(rules, citations))
  {
    if i :| 0 <= i < |Quotes(rules, citations)| && Contains(rules, stmt, Quotes(rules, citations)[i]) {
      QuoteIsContained(rules, stmt, citations, i);
    }
    if Contained(rules, stmt, citations) {
      var i := SomeQuoteContains(rules, stmt, citations);
    }
  }

  lemma IncludesIff(text: string, part: string)
    ensures Includes(text, part) <==> exists i :: OccursAt(text, part, i)
  {
  }

  lemma OverlapIff(rules: Rules, own: seq<string>, citations: seq<Citation>, all: set<string>)
    ensures SharesEnough(rules, own, citations, all) <==>
      OverlapEnough(CountIn(own, QuoteTokens(rules, Quotes(rules, citations))), |own|, |all|)
  {
    SharedIs(rules, own, citations);
    EnoughIff(SharedTokens(rules, own, citations), |own|, |all|);
  }

  lemma EnoughIff(shared: nat, own: nat, all: nat)
    ensures (shared as real >= 0.35 * all as real || shared as real >= 0.6 * own as real) <==>
      OverlapEnough(shared, own, all)
  {
    assert (20 * shared) as real == 20.0 * shared as real && (7 * all) as real == 7.0 * all as real;
    assert (5 * shared) as real == 5.0 * shared as real && (3 * own) as real == 3.0 * own as real;
  }

  lemma QuotedLongEnough(rules: Rules, stmt: string, citations: seq<Citation>)
    ensures var quotes := Quotes(rules, citations);
      quotes != [] && |stmt| <= 3 * LongestNormal(rules, quotes) <==> LongQuoted(rules, stmt, citations)
  {
    QuotesAre(rules, citations);
    LongestIs(rules, Quotes(rules, citations));
  }

  lemma TokensAre(rules: Rules, own: seq<string>, citations: seq<Citation>)
    ensures var quoted := QuoteTokens(rules, Quotes(rules, citations));
      && AllTokens(rules, own, citations, Elements(own) + quoted)
      && (quoted != {} <==> exists t :: TokenQuoted(rules, citations, t))
      && forall all :: AllTokens(rules, own, citations, all) ==> all == Elements(own) + quoted
  {
    var quoted := QuoteTokens(rules, Quotes(rules, citations));
    forall t ensures t in quoted <==> TokenQuoted(rules, citations, t) {
      TokensAreQuoted(rules, citations, t);
    }
    forall all | AllTokens(rules, own, citations, all) ensures all == Elements(own) + quoted {
      forall t ensures t in all <==> t in Elements(own) + quoted {
      }
    }
  }

  predicate TokensEnough(own: seq<string>, quoted: set<string>) {
    own != [] && quoted != {} && OverlapEnough(CountIn(own, quoted), |own|, |Elements(own) + quoted|)
  }

  lemma TokensOverlapIff(rules: Rules, own: seq<string>, citations: seq<Citation>)
    ensures var quoted := QuoteTokens(rules, Quotes(rules, citations));
      TokensEnough(own, quoted) <==> TokensOverlap(rules, own, citations)
  {
    var all := Elements(own) + QuoteTokens(rules, Quotes(rules, citations));
    TokensAre(rules, own, citations);
    OverlapIff(rules, own, citations, all);
  }

  /**
   * A statement is grounded exactly when it is long enough, at most three times as long as some quote, and either
   * contains or is contained in a quote, or shares enough tokens with the quotes.
   */
  lemma GroundedIff(rules: Rules, statement: string, citations: seq<Citation>)
    ensures Ground(rules, statement, citations).Ok() <==> Grounded(rules, statement, citations)
  {
    var stmt := rules.normalize(statement);
    QuotedLongEnough(rules, stmt, citations);
    ContainedIff(rules, stmt, citations);
    TokensOverlapIff(rules, rules.tokens(stmt), citations);
    GroundIs(rules, statement, citations);
  }

  /** The order of the checks does not matter for whether they pass. */
  lemma GroundIs(rules: Rules, statement: string, citations: seq<Citation>)
    ensures var stmt, quotes := rules.normalize(statement), Quotes(rules, citations);
      var own, quoted := rules.tokens(stmt), QuoteTokens(rules, quotes);
      Ground(rules, statement, citations).Ok() <==>
        && |stmt| >= 8 && quotes != [] && |stmt| <= 3 * LongestNormal(rules, quotes)
        && (SomeContains(rules, stmt, quotes) || TokensEnough(own, quoted))
  {
  }

  // ----- the gate and the verdict of a row -----

  predicate Clean(rules: Rules, c: Candidate, citeOk: bool, secretOk: bool) {
    secretOk && citeOk && c.citations != [] && |rules.trim(c.statement)| >= 8
  }

  /** The gate names the first thing that stands in the way, or why it promotes. */
  lemma GateSays(rules: Rules, c: Candidate, citeOk: bool, secretOk: bool, auto: bool, holdFirst: bool)
    ensures var g := EvaluateGate(rules, c, citeOk, secretOk, auto, holdFirst);
      var clean := Clean(rules, c, citeOk, secretOk);
      && (SecretLikeMaterial in g.reasons <==> !secretOk)
      && (MissingOrFailedCitation in g.reasons <==> secretOk && (!citeOk || c.citations == []))
      && (StatementTooShort in g.reasons <==>
            secretOk && citeOk && c.citations != [] && |rules.trim(c.statement)| < 8)
      && (OpenQuestionSideChannel in g.reasons <==> clean && c.kind.OpenQuestion?)
      && (ProcedureHoldBiased in g.reasons <==> clean && c.kind.Procedure?)
      && (FactCandidateNotAllowed in g.reasons <==> clean && c.kind.FactCandidate?)
      && (HoldFirstOverride in g.reasons <==> clean && Usable(c.kind) && (holdFirst || !auto))
      && (HoldConfidenceOrFeatures in g.reasons <==>
            clean && Usable(c.kind) && auto && !holdFirst && c.confidence < 0.55)
      && (PromoteWhenVerified in g.reasons <==>
            clean && Usable(c.kind) && auto && !holdFirst && c.confidence >= 0.55)
      && (g.verdict.Promote? <==> PromoteWhenVerified in g.reasons)
      && (g.verdict.Hold? <==> clean && PromoteWhenVerified !in g.reasons)
      && g.reasons != [] && NearDuplicateStatement !in g.reasons && NearDuplicateRecent !in g.reasons
  {
  }

  /** The candidate passes every check in this view under these settings. */
  ghost predicate Passes(rules: Rules, c: Candidate, input: RunInput) {
    && c.citations != [] && (forall q :: q in c.citations ==> CitationInPack(rules, q, input.view))
    && Grounded(rules, c.statement, c.citations)
    && !rules.secretish(c.statement) && (forall q :: q in c.citations ==> !rules.secretish(q.quote))
    && |rules.trim(c.statement)| >= 8 && Usable(c.kind) && c.confidence >= 0.55
    && input.autoPromote && !input.holdFirst
  }

  lemma ChecksIff(rules: Rules, c: Candidate, view: string)
    ensures CiteOk(rules, c, view) <==>
      && c.citations != [] && (forall q :: q in c.citations ==> CitationInPack(rules, q, view))
      && Grounded(rules, c.statement, c.citations)
    ensures CiteOk(rules, c, view) ==>
      (SecretOk(rules, c, view) <==>
        !rules.secretish(c.statement) && forall q :: q in c.citations ==> !rules.secretish(q.quote))
  {
    GroundedIff(rules, c.statement, c.citations);
    if forall q :: q in c.citations ==> CitationInPack(rules, q, view) {
      forall i | 0 <= i < |c.citations| ensures CitationInPack(rules, c.citations[i], view) {
        assert c.citations[i] in c.citations;
      }
    }
    if CiteOk(rules, c, view) && SecretOk(rules, c, view) {
      CleanHoldsNoSecret(rules, c, view);
    }
  }

  /** What one turn of the candidate loop writes for a candidate, after these keys were promoted or are recent. */
  ghost predicate Describes(
    rules: Rules, input: RunInput, c: Candidate, ordinal: nat, promoted: set<string>, recent: set<string>, row: Row)
  {
    var key := rules.normalize(c.statement);
    && row.candidate == c && row.createdAt == input.now && row.materialized.None? && row.claim.None?
    && row.id.zone == input.zone && row.id.source == input.source && row.id.packDigest == input.packDigest
    && row.id.kind == c.kind && row.id.statement == c.statement && row.id.citations == c.citations
    && row.id.ordinal == ordinal
    && (row.gate.verdict.Promote? <==> Passes(rules, c, input) && key !in promoted && key !in recent)
    && (NearDuplicateStatement in row.gate.reasons <==> Passes(rules, c, input) && key in promoted)
    && (NearDuplicateRecent in row.gate.reasons <==> Passes(rules, c, input) && key !in promoted && key in recent)
    && (row.gate.verdict.Hold? <== Passes(rules, c, input) && (key in promoted || key in recent))
  }

  lemma RowIs(rules: Rules, input: RunInput, c: Candidate, ordinal: nat, promoted: set<string>, recent: set<string>)
    ensures Describes(rules, input, c, ordinal, promoted, recent, RowFor(rules, input, c, ordinal, promoted, recent))
  {
    var citeOk, secretOk := CiteOk(rules, c, input.view), SecretOk(rules, c, input.view);
    ChecksIff(rules, c, input.view);
    GateSays(rules, c, citeOk, secretOk, input.autoPromote, input.holdFirst);
  }

  // ----- a run -----

  /** The candidates the quality filter keeps, in order. */
  function KeptOnes(rules: Rules, view: string, cs: seq<Candidate>): seq<Candidate> {
    if cs == [] then []
    else
      var n := |cs| - 1;
      KeptOnes(rules, view, cs[..n]) + if rules.keeps(cs[n], view) then [cs[n]] else []
  }

  /** The normalized statements of the rows that were promoted. */
  function PromotedOnes(rules: Rules, made: seq<Row>): set<string> {
    set r | r in made && r.gate.verdict.Promote? :: rules.normalize(r.candidate.statement)
  }

  /** A row for each candidate, which sees what was recent before the run and what the run promoted before it. */
  ghost predicate RunMakes(rules: Rules, input: RunInput, recent: set<string>, kept: seq<Candidate>, made: seq<Row>) {
    && |made| == |kept|
    && forall k: nat {:trigger made[k]} :: k < |kept| ==>
         var promoted := PromotedOnes(rules, made[..k]);
         Describes(rules, input, kept[k], k + 1, promoted, recent + promoted, made[k])
  }

  /** Those rows whose id the table does not have yet. */
  function Missing(rows: seq<Row>, made: seq<Row>): seq<Row> {
    if made == [] then []
    else
      var n := |made| - 1;
      Missing(rows, made[..n]) + if exists r :: r in rows && r.id == made[n].id then [] else [made[n]]
  }

  /** What the run hands back for a row: the stored one of its id if there is one. */
  predicate HandsBack(rows: seq<Row>, row: Row, back: Row) {
    if exists r :: r in rows && r.id == row.id then back in rows && back.id == row.id else back == row
  }

  ghost predicate RunLeaves(rules: Rules, input: RunInput, recent: set<string>, rows: seq<Row>, cs: seq<Candidate>,
                            p: Progress, made: seq<Row>)
  {
    && RunMakes(rules, input, recent, KeptOnes(rules, input.view, cs), made)
    && p.rows == rows + Missing(rows, made)
    && |p.written| == |made| && forall k :: 0 <= k < |made| ==> HandsBack(rows, made[k], p.written[k])
  }

  lemma {:induction false} MissingFacts(rows: seq<Row>, made: seq<Row>)
    ensures forall r :: r in Missing(rows, made) ==> r in made
  {
    if made != [] {
      MissingFacts(rows, made[..|made| - 1]);
      assert made == made[..|made| - 1] + [made[|made| - 1]];
    }
  }

  lemma {:induction false} GetPassesOver(rows: seq<Row>, more: seq<Row>, id: ProposalId)
    requires forall r :: r in more ==> r.id != id
    ensures Get(rows + more, id) == Get(rows, id)
  {
    if more == [] {
      assert rows + more == rows;
    } else {
      var n := |more| - 1;
      assert (rows + more)[..|rows| + n] == rows + more[..n];
      assert more[n] in more;
      GetPassesOver(rows, more[..n], id);
    }
  }

  lemma MoreIsMade(
    rules: Rules, input: RunInput, recent: set<string>, kept: seq<Candidate>, made: seq<Row>, c: Candidate, row: Row)
    requires RunMakes(rules, input, recent, kept, made)
    requires var promoted := PromotedOnes(rules, made);
      Describes(rules, input, c, |kept| + 1, promoted, recent + promoted, row)
    ensures RunMakes(rules, input, recent, kept + [c], made + [row])
  {
    var longer := made + [row];
    forall k: nat | k < |kept| + 1
      ensures var promoted := PromotedOnes(rules, longer[..k]);
        Describes(rules, input, (kept + [c])[k], k + 1, promoted, recent + promoted, longer[k])
    {
      assert longer[..k] == made[..k];
      if k == |made| {
        assert made[..k] == made;
      } else {
        assert longer[k] == made[k];
      }
    }
  }

  /** Rows made earlier in the run have smaller ordinals. */
  lemma OrdinalsDiffer(
    rules: Rules, input: RunInput, recent: set<string>, kept: seq<Candidate>, made: seq<Row>, rows: seq<Row>)
    requires RunMakes(rules, input, recent, kept, made)
    ensures forall r :: r in Missing(rows, made) ==> r.id.ordinal <= |made|
  {
    MissingFacts(rows, made);
    forall r | r in made ensures r.id.ordinal <= |made| {
      var k :| 0 <= k < |made| && made[k] == r;
      var promoted := PromotedOnes(rules, made[..k]);
      assert Describes(rules, input, kept[k], k + 1, promoted, recent + promoted, made[k]);
    }
  }

  lemma PutIsMissing(rows: seq<Row>, made: seq<Row>, row: Row)
    requires forall r :: r in Missing(rows, made) ==> r.id != row.id
    ensures var all := rows + Missing(rows, made);
      && Put(all, row) == rows + Missing(rows, made + [row]) && HandsBack(rows, row, Stored(all, row))
  {
    GetPassesOver(rows, Missing(rows, made), row.id);
    GetFacts(rows, row.id);
    assert (made + [row])[..|made|] == made;
    if r :| r in rows && r.id == row.id {
      var i :| 0 <= i < |rows| && rows[i] == r;
      assert rows[i].id == row.id;
    }
    assert Missing(rows, made) + [] == Missing(rows, made);
    assert (rows + Missing(rows, made)) + [row] == rows + (Missing(rows, made) + [row]);
  }

  lemma PromotedOneMore(rules: Rules, made: seq<Row>, row: Row)
    ensures PromotedOnes(rules, made + [row]) == PromotedOnes(rules, made) + PromotedKey(rules, row)
  {
    var more := made + [row];
    assert more[|made|] == row && forall r :: r in more <==> r in made || r == row;
    forall key
      ensures key in PromotedOnes(rules, more) <==> key in PromotedOnes(rules, made) + PromotedKey(rules, row)
    {
    }
  }

  ghost predicate RunKeeps(rules: Rules, recent: set<string>, p: Progress, made: seq<Row>) {
    p.promoted == PromotedOnes(rules, made) && p.recent == recent + p.promoted && p.ordinal == |made|
  }

  lemma OneMoreKept(rules: Rules, view: string, cs: seq<Candidate>, c: Candidate)
    ensures KeptOnes(rules, view, cs + [c]) == KeptOnes(rules, view, cs) + if rules.keeps(c, view) then [c] else []
  {
    assert (cs + [c])[..|cs|] == cs;
  }

  /** The rows of a run and what it hands back, after one more row. */
  lemma HandsBackMore(rows: seq<Row>, made: seq<Row>, written: seq<Row>, row: Row, back: Row)
    requires |written| == |made| && forall k :: 0 <= k < |made| ==> HandsBack(rows, made[k], written[k])
    requires HandsBack(rows, row, back)
    ensures forall k :: 0 <= k < |made| + 1 ==> HandsBack(rows, (made + [row])[k], (written + [back])[k])
  {
  }

  /** One more candidate that is kept. */
  lemma RunGoesOn(rules: Rules, input: RunInput, recent: set<string>, rows: seq<Row>, cs: seq<Candidate>,
                  c: Candidate, p: Progress, made: seq<Row>, row: Row)
    requires RunLeaves(rules, input, recent, rows, cs, p, made) && RunKeeps(rules, recent, p, made)
    requires rules.keeps(c, input.view)
    requires Describes(rules, input, c, p.ordinal + 1, p.promoted, p.recent, row)
    ensures var q := Progress(Put(p.rows, row), p.promoted, p.recent, p.ordinal, p.written + [Stored(p.rows, row)]);
      RunLeaves(rules, input, recent, rows, cs + [c], q, made + [row])
  {
    OneMoreKept(rules, input.view, cs, c);
    OrdinalsDiffer(rules, input, recent, KeptOnes(rules, input.view, cs), made, rows);
    MoreIsMade(rules, input, recent, KeptOnes(rules, input.view, cs), made, c, row);
    PutIsMissing(rows, made, row);
    HandsBackMore(rows, made, p.written, row, Stored(p.rows, row));
  }

  lemma RunStep(rules: Rules, input: RunInput, recent: set<string>, rows: seq<Row>, cs: seq<Candidate>,
                c: Candidate, p: Progress, made: seq<Row>) returns (row: Row)
    requires RunLeaves(rules, input, recent, rows, cs, p, made) && RunKeeps(rules, recent, p, made)
    requires rules.keeps(c, input.view)
    ensures RunLeaves(rules, input, recent, rows, cs + [c], Consider(rules, input, p, c), made + [row])
    ensures RunKeeps(rules, recent, Consider(rules, input, p, c), made + [row])
  {
    row := RowFor(rules, input, c, p.ordinal + 1, p.promoted, p.recent);
    RowIs(rules, input, c, p.ordinal + 1, p.promoted, p.recent);
    RunGoesOn(rules, input, recent, rows, cs, c, p, made, row);
    PromotedOneMore(rules, made, row);
  }

  lemma {:induction false} RunIs(rules: Rules, input: RunInput, rows: seq<Row>, recent: set<string>, cs: seq<Candidate>)
      returns (made: seq<Row>)
    ensures var p := ConsiderAll(rules, input, Progress(rows, {}, recent, 0, []), cs);
      RunLeaves(rules, input, recent, rows, cs, p, made) && RunKeeps(rules, recent, p, made)
  {
    if cs == [] {
      made := [];
      assert rows + [] == rows;
    } else {
      var n := |cs| - 1;
      var p := ConsiderAll(rules, input, Progress(rows, {}, recent, 0, []), cs[..n]);
      made := RunIs(rules, input, rows, recent, cs[..n]);
      assert cs[..n] + [cs[n]] == cs;
      if rules.keeps(cs[n], input.view) {
        var row := RunStep(rules, input, recent, rows, cs[..n], cs[n], p, made);
        made := made + [row];
      } else {
        assert KeptOnes(rules, input.view, cs) == KeptOnes(rules, input.view, cs[..n]);
      }
    }
  }

  /**
   * A run makes one row for each candidate the quality filter keeps, numbered in order; a row is promoted exactly
   * when its candidate passes every check and neither this run nor the recent promotes have its statement. Rows
   * whose id is known are not written again, and the run hands back the stored ones.
   */
  lemma RunWrites(rules: Rules, before: IdOrder, rows: seq<Row>, input: RunInput)
    ensures exists made :: RunLeaves(rules, input, Keys(rules, Recent(rows, input.zone, before)), rows,
                                     input.candidates, Run(rules, before, rows, input), made)
  {
    var recent := Keys(rules, Recent(rows, input.zone, before));
    var made := RunIs(rules, input, rows, recent, input.candidates);
    assert RunLeaves(rules, input, recent, rows, input.candidates, Run(rules, before, rows, input), made);
  }

  // ----- markings -----

  /** A marking fills in the event and the claim of the one row of its id, if it has none, and nothing else. */
  lemma MarkingRecords(rows: seq<Row>, id: ProposalId, event: int, claim: Option<int>, i: nat)
    requires IdsDiffer(rows) && i < |rows|
    ensures |MarkOnce(rows, id, event, claim)| == |rows|
    ensures MarkOnce(rows, id, event, claim)[i] ==
      if rows[i].id == id && rows[i].materialized.None? then rows[i].(materialized := Some(event), claim := claim)
      else rows[i]
  {
    GetFacts(rows, id);
    if rows[i].id == id {
      var j :| 0 <= j < |rows| && rows[j] == Get(rows, id).value;
    }
  }

  /** This operation marked the row: it was stored without an event, and got these. */
  ghost predicate MarkedAt(rules: Rules, before: IdOrder, ops: seq<Op>, k: nat, i: nat, r: Row) {
    && k < |ops| && i < |Execute(rules, before, [], ops[..k])|
    && Execute(rules, before, [], ops[..k])[i].materialized.None?
    && ops[k].MarkOp? && ops[k].id == r.id && Some(ops[k].event) == r.materialized && ops[k].claim == r.claim
  }

  /** In every run of operations a row names the event and the claim of the first marking that found it, or none. */
  lemma {:induction false} FirstMarkingStays(rules: Rules, before: IdOrder, ops: seq<Op>, i: nat)
    requires i < |Execute(rules, before, [], ops)|
    ensures var r := Execute(rules, before, [], ops)[i];
      if r.materialized.None? then r.claim.None? else exists k: nat :: MarkedAt(rules, before, ops, k, i, r)
  {
    var n := |ops| - 1;
    var rows, after := Execute(rules, before, [], ops[..n]), Execute(rules, before, [], ops);
    ReachableTablesAreSound(rules, before, ops[..n]);
    if i < |rows| {
      FirstMarkingStays(rules, before, ops[..n], i);
      ApplyKeepsRows(rules, before, rows, ops[n]);
      if ops[n].RunOp? {
        ConsiderAllAppends(rules, ops[n].input, Begin(rules, rows, ops[n].input, before), ops[n].input.candidates);
        assert after[i] == rows[i];
      } else {
        MarkingRecords(rows, ops[n].id, ops[n].event, ops[n].claim, i);
      }
      MarkedEarlier(rules, before, ops, i);
      if after[i] != rows[i] {
        assert MarkedAt(rules, before, ops, n, i, after[i]);
      } else if after[i].materialized.Some? {
        var k: nat :| MarkedAt(rules, before, ops[..n], k, i, rows[i]);
        assert MarkedAt(rules, before, ops, k, i, after[i]);
      }
    } else {
      NewRowsAreUnmarked(rules, before, rows, ops[n], i);
    }
  }

  lemma MarkedEarlier(rules: Rules, before: IdOrder, ops: seq<Op>, i: nat)
    requires ops != []
    ensures forall k: nat, r ::
      MarkedAt(rules, before, ops[..|ops| - 1], k, i, r) ==> MarkedAt(rules, before, ops, k, i, r)
  {
    var n := |ops| - 1;
    forall k: nat, r | MarkedAt(rules, before, ops[..n], k, i, r) ensures MarkedAt(rules, before, ops, k, i, r) {
      assert ops[..n][..k] == ops[..k] && ops[..n][k] == ops[k];
    }
  }

  lemma NewRowsAreUnmarked(rules: Rules, before: IdOrder, rows: seq<Row>, op: Op, i: nat)
    requires |rows| <= i < |Apply(rules, before, rows, op)|
    ensures Apply(rules, before, rows, op)[i].materialized.None? && Apply(rules, before, rows, op)[i].claim.None?
  {
    match op
    case RunOp(input) =>
      var recent := Keys(rules, Recent(rows, input.zone, before));
      var made := RunIs(rules, input, rows, recent, input.candidates);
      MissingFacts(rows, made);
      var r := Apply(rules, before, rows, op)[i];
      assert r == Missing(rows, made)[i - |rows|] && r in made;
      var k :| 0 <= k < |made| && made[k] == r;
      var promoted := PromotedOnes(rules, made[..k]);
      assert Describes(rules, input, KeptOnes(rules, input.view, input.candidates)[k], k + 1,
                       promoted, recent + promoted, made[k]);
    case MarkOp(id, event, claim) =>
  }
}
