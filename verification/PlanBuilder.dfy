/**
 * `buildPolicyReconciliationPlanV2` and `validatePlan`, pass by pass: each loop over the entries or the
 * candidates, with the sets and maps it updates, proved to compute its part of the specification.
 */
module PlanBuilder {
  import opened Wrappers
  import opened Ordering
  import opened Text
  import opened Reachability
  import opened Components
  import opened ReconciliationModel
  import opened Partition
  import opened PlanSpec

  lemma PrefixGrows<T>(s: seq<T>, i: nat)
    requires i < |s|
    ensures s[..i + 1] == s[..i] + [s[i]]
  {
  }

  lemma WhereGrows(es: seq<Entry>, p: Entry -> bool, i: nat)
    requires i < |es|
    ensures Where(es[..i + 1], p) == Where(es[..i], p) + (if p(es[i]) then {es[i].component} else {})
  {
    PrefixGrows(es, i);
    assert forall e :: e in es[..i + 1] <==> e in es[..i] || e == es[i];
  }

  method OverlapPass(es: seq<Entry>) returns (causal: set<string>)
    ensures causal == Where(es, Overlapping(es))
  {
    causal := {};
    for i := 0 to |es|
      invariant causal == Where(es[..i], Overlapping(es))
    {
      WhereGrows(es, Overlapping(es), i);
      if IsUnchanged(es[i]) && SharesWithEligible(es, es[i]) {
        causal := causal + {es[i].component};
      }
    }
    assert es[..|es|] == es;
  }

  lemma {:induction false} WritesToAppend(es: seq<Entry>, e: Entry, target: Id)
    ensures WritesTo(es + [e], target)
      == WritesTo(es, target) + (if IsWrite(e) && e.base.target == Some(target) then [e] else [])
  {
    var s := es + [e];
    var last := if IsWrite(e) && e.base.target == Some(target) then [e] else [];
    if es == [] {
      assert s == [e] && s[1..] == [];
    } else {
      WritesToAppend(es[1..], e, target);
      assert s[0] == es[0] && s[1..] == es[1..] + [e];
      var first := if IsWrite(es[0]) && es[0].base.target == Some(target) then [es[0]] else [];
      assert WritesTo(s, target) == first + (WritesTo(es[1..], target) + last);
      assert WritesTo(es, target) == first + WritesTo(es[1..], target);
    }
  }

  /** `eligibleWritesByTarget` */
  method GroupWrites(es: seq<Entry>) returns (groups: map<Id, seq<Entry>>)
    ensures forall t :: WritesTo(es, t) == if t in groups then groups[t] else []
  {
    groups := map[];
    for i := 0 to |es|
      invariant forall t :: WritesTo(es[..i], t) == if t in groups then groups[t] else []
    {
      PrefixGrows(es, i);
      forall t ensures WritesTo(es[..i + 1], t)
        == WritesTo(es[..i], t) + (if IsWrite(es[i]) && es[i].base.target == Some(t) then [es[i]] else [])
      {
        WritesToAppend(es[..i], es[i], t);
      }
      if IsWrite(es[i]) && es[i].base.target.Some? {
        var t := es[i].base.target.value;
        var group := if t in groups then groups[t] else [];
        groups := groups[t := group + [es[i]]];
      }
    }
    assert es[..|es|] == es;
  }

  lemma {:induction false} InWritesTo(es: seq<Entry>, t: Id, e: Entry)
    ensures e in WritesTo(es, t) <==> e in es && IsWrite(e) && e.base.target == Some(t)
  {
    if es != [] {
      InWritesTo(es[1..], t, e);
      assert es == [es[0]] + es[1..];
    }
  }

  /** Every component of a group of two or more writes to one target. */
  method ConflictPass(es: seq<Entry>) returns (causal: set<string>)
    ensures causal == Where(es, Conflicting(es))
  {
    var groups := GroupWrites(es);
    causal := {};
    var rest := groups.Keys;
    ghost var seen: set<Id> := {};
    while rest != {}
      invariant rest !! seen && rest + seen == groups.Keys
      invariant forall c :: c in causal <==> exists t, e :: t in seen && InRivalGroup(es, t, e) && e.component == c
      decreases |rest|
    {
      var t :| t in rest;
      var group := groups[t];
      assert group == WritesTo(es, t);
      if |group| >= 2 {
        causal := causal + ComponentsOf(group);
        forall c ensures c in ComponentsOf(group) <==> exists e :: InRivalGroup(es, t, e) && e.component == c {
          if c in ComponentsOf(group) {
            var e :| e in group && e.component == c;
            assert InRivalGroup(es, t, e);
          }
        }
      } else {
        assert forall e :: !InRivalGroup(es, t, e);
      }
      rest, seen := rest - {t}, seen + {t};
    }
    forall c ensures c in causal <==> c in Where(es, Conflicting(es)) {
      if c in causal {
        var t, e :| t in seen && InRivalGroup(es, t, e) && e.component == c;
        InWritesTo(es, t, e);
      }
      if c in Where(es, Conflicting(es)) {
        var e :| e in es && Conflicting(es)(e) && e.component == c;
        InWritesTo(es, e.base.target.value, e);
        assert e.base.target.value in groups && InRivalGroup(es, e.base.target.value, e);
      }
    }
  }

  ghost predicate InRivalGroup(es: seq<Entry>, t: Id, e: Entry) {
    e in WritesTo(es, t) && |WritesTo(es, t)| >= 2
  }

  function ComponentsOf(group: seq<Entry>): set<string> {
    set e | e in group :: e.component
  }

  lemma {:induction false} PlannedAppend(es: seq<Entry>, e: Entry)
    ensures PlannedEdges(es + [e]) ==
      PlannedEdges(es) + (if Plans(e) then [(e.base.target.value, e.base.replacement.value)] else [])
  {
    var s := es + [e];
    if es == [] {
      assert s == [e] && s[1..] == [];
    } else {
      PlannedAppend(es[1..], e);
      assert s[0] == es[0] && s[1..] == es[1..] + [e];
    }
  }

  /** `normalizedEdges` */
  method EdgePass(es: seq<Entry>, cs: seq<Candidate>) returns (edges: seq<(Id, Id)>)
    ensures edges == Edges(es, cs)
  {
    edges := RelationEdges(cs);
    for i := 0 to |es|
      invariant edges == RelationEdges(cs) + PlannedEdges(es[..i])
    {
      PrefixGrows(es, i);
      PlannedAppend(es[..i], es[i]);
      if IsWrite(es[i]) && es[i].base.replacement.Some? && es[i].base.target.Some? {
        edges := edges + [(es[i].base.target.value, es[i].base.replacement.value)];
      }
    }
    assert es[..|es|] == es;
  }

  /** The subject and cycle checks of every eligible entry. */
  method EntryPass(es: seq<Entry>, cs: seq<Candidate>, edges: seq<(Id, Id)>)
    returns (mismatched: set<string>, cyclic: set<string>)
    ensures mismatched == Where(es, Mismatched(cs))
    ensures cyclic == Where(es, CycleClosing(Elements(edges)))
  {
    mismatched, cyclic := {}, {};
    ghost var p, q := Mismatched(cs), CycleClosing(Elements(edges));
    for i := 0 to |es|
      invariant mismatched == Where(es[..i], p) && cyclic == Where(es[..i], q)
    {
      WhereGrows(es, p, i);
      WhereGrows(es, q, i);
      var e := es[i];
      var closes := false;
      if e.base.replacement.Some? && e.base.target.Some? {
        closes := Reaches(edges, e.base.replacement.value, e.base.target.value);
      }
      if !IsUnchanged(e) && SubjectMismatch(LastCandidate(cs, e.base.source), e.base) {
        mismatched := mismatched + {e.component};
      }
      if !IsUnchanged(e) && closes {
        cyclic := cyclic + {e.component};
      }
    }
    assert es[..|es|] == es;
  }

  method ConformancePass(es: seq<Entry>, cs: seq<Candidate>) returns (causal: set<string>)
    ensures causal == UnprovedComponents(es, cs)
  {
    causal := {};
    for i := 0 to |cs|
      invariant causal == UnprovedComponents(es, cs[..i])
    {
      PrefixGrows(cs, i);
      assert forall c :: c in cs[..i + 1] <==> c in cs[..i] || c == cs[i];
      if cs[i].conformanceProved == Some(false) {
        var entry := FirstEntry(es, cs[i].source);
        if entry.Some? {
          causal := causal + {entry.value.component};
        }
      }
    }
    assert cs[..|cs|] == cs;
  }

  method InfluencePass(es: seq<Entry>, causal: set<string>) returns (taints: set<Taint>)
    ensures taints == InfluenceTaints(es, causal)
  {
    taints := {};
    for i := 0 to |es|
      invariant taints == InfluenceTaints(es[..i], causal)
    {
      PrefixGrows(es, i);
      assert forall e :: e in es[..i + 1] <==> e in es[..i] || e == es[i];
      if IsUnchanged(es[i]) && es[i].component in causal {
        var taint := ReasonTaint(es[i].base.reason);
        if taint.Some? {
          taints := taints + {taint.value};
        }
      }
    }
    assert es[..|es|] == es;
  }

  lemma {:induction false} CountAppend<T>(s: seq<T>, x: T, p: T -> bool)
    ensures Count(s + [x], p) == Count(s, p) + (if p(x) then 1 else 0)
  {
    if s == [] {
      assert s + [x] == [x];
    } else {
      CountAppend(s[1..], x, p);
      assert (s + [x])[0] == s[0] && (s + [x])[1..] == s[1..] + [x];
    }
  }

  ghost predicate Tallied(es: seq<Entry>, tally: map<Reason, nat>) {
    tally.Keys == Reasons(es) && forall r :: r in tally ==> tally[r] == Count(es, HasReason(r))
  }

  /** The map from reason to number of entries, built one entry at a time. */
  method TallyReasons(es: seq<Entry>) returns (tally: map<Reason, nat>)
    ensures Tallied(es, tally)
  {
    tally := map[];
    for i := 0 to |es|
      invariant Tallied(es[..i], tally)
    {
      PrefixGrows(es, i);
      var reason := es[i].base.reason;
      assert forall e :: e in es[..i + 1] <==> e in es[..i] || e == es[i];
      assert Reasons(es[..i + 1]) == Reasons(es[..i]) + {reason};
      forall r
        ensures Count(es[..i + 1], HasReason(r)) == Count(es[..i], HasReason(r)) + (if reason == r then 1 else 0)
      {
        CountAppend(es[..i], es[i], HasReason(r));
      }
      if reason !in tally {
        AbsentReason(es[..i], reason);
      }
      tally := tally[reason := (if reason in tally then tally[reason] else 0) + 1];
    }
    assert es[..|es|] == es;
  }

  lemma {:induction false} AbsentReason(es: seq<Entry>, r: Reason)
    requires r !in Reasons(es)
    ensures Count(es, HasReason(r)) == 0
  {
    if es != [] {
      assert es[0] in es && forall e :: e in es[1..] ==> e in es;
      AbsentReason(es[1..], r);
    }
  }

  method TableRows(es: seq<Entry>, reasons: seq<Reason>, tally: map<Reason, nat>) returns (rows: seq<(Reason, nat)>)
    requires forall r :: r in reasons ==> r in tally && tally[r] == Count(es, HasReason(r))
    ensures |rows| == |reasons|
    ensures forall k :: 0 <= k < |rows| ==> rows[k] == (reasons[k], Count(es, HasReason(reasons[k])))
  {
    rows := [];
    for i := 0 to |reasons|
      invariant |rows| == i
      invariant forall k :: 0 <= k < i ==> rows[k] == (reasons[k], Count(es, HasReason(reasons[k])))
    {
      assert reasons[i] in reasons;
      rows := rows + [(reasons[i], tally[reasons[i]])];
    }
  }

  method ReasonTable(es: seq<Entry>) returns (rows: seq<(Reason, nat)>)
    ensures rows == ReasonRows(es)
  {
    var tally := TallyReasons(es);
    ReasonsOrder();
    var reasons := SortedSet(tally.Keys, ReasonBefore);
    rows := TableRows(es, reasons, tally);
    TableIsReasonRows(es, reasons, rows);
  }

  lemma TableIsReasonRows(es: seq<Entry>, reasons: seq<Reason>, rows: seq<(Reason, nat)>)
    requires reasons == OrderBy(Reasons(es), ReasonBefore) && |rows| == |reasons|
    requires forall k :: 0 <= k < |rows| ==> rows[k] == (reasons[k], Count(es, HasReason(reasons[k])))
    ensures rows == ReasonRows(es)
  {
  }

  // ----- validatePlan -----

  method RowsMatch(tally: map<Reason, nat>, rows: seq<(Reason, nat)>) returns (ok: bool)
    ensures ok <==> forall i :: 0 <= i < |rows| ==> rows[i].0 in tally && tally[rows[i].0] == rows[i].1
  {
    for i := 0 to |rows|
      invariant forall k :: 0 <= k < i ==> rows[k].0 in tally && tally[rows[k].0] == rows[k].1
    {
      if rows[i].0 !in tally || tally[rows[i].0] != rows[i].1 {
        return false;
      }
    }
    return true;
  }

  /** The reason table a validator recomputes: same rows, strictly sorted, right counts. */
  method ValidateReasonCounts(es: seq<Entry>, rows: seq<(Reason, nat)>) returns (ok: bool)
    ensures ok <==> ValidReasonCounts(es, rows)
  {
    var tally := TallyReasons(es);
    var matched := RowsMatch(tally, rows);
    var sorted := StrictlySorted(rows, RowBefore);
    return |rows| == |tally.Keys| && matched && sorted;
  }

  method AllEntriesValid(es: seq<Entry>) returns (ok: bool)
    ensures ok <==> EntriesValid(es)
  {
    for i := 0 to |es|
      invariant forall k :: 0 <= k < i ==> ValidEntry(es[k])
    {
      if !ValidEntry(es[i]) {
        return false;
      }
    }
    return true;
  }

  /** `assertSortedUnique`: neighbours strictly ascend. */
  method StrictlySorted<T>(s: seq<T>, lt: (T, T) -> bool) returns (ok: bool)
    ensures ok <==> StepsUp(s, lt)
  {
    for i := 0 to |s|
      invariant forall k :: 0 < k < i ==> lt(s[k - 1], s[k])
    {
      if i > 0 && !lt(s[i - 1], s[i]) {
        return false;
      }
    }
    return true;
  }

  method ValidateCounts(es: seq<Entry>, c: Counts) returns (ok: bool)
    ensures ok <==> ValidCounts(es, c)
  {
    var reasons := ValidateReasonCounts(es, c.reasons);
    return reasons
      && c.writes == Count(es, IsWrite) && c.noops == Count(es, IsNoop) && c.unsafe == Count(es, IsUnchanged)
      && c.replacements == Count(es, IsReplace) && c.invalidations == Count(es, IsInvalidate)
      && c.alreadyApplied == Count(es, IsAlreadyApplied)
      && c.replacements + c.invalidations == c.writes && c.alreadyApplied == c.noops;
  }

  /** `validatePlan` accepts exactly the plans that meet every rule. */
  method ValidatePlan(p: Plan) returns (ok: bool)
    ensures ok <==> ValidPlan(p)
  {
    if !ValidHeader(p) {
      return false;
    }
    var entries := AllEntriesValid(p.entries);
    var sorted := StrictlySorted(p.entries, EntryBefore);
    var counts := ValidateCounts(p.entries, p.counts);
    var reasons := StrictlySorted(p.taintReasons, TaintBefore);
    var components := StrictlySorted(p.taintComponents, Less);
    var tainted := StrictlySorted(p.taintEntries, Less);
    return entries && sorted && counts && reasons && components && tainted
      && ComponentIds(p.taintComponents) && EventIds(p.taintEntries)
      && p.admissible == (p.taintReasons == []);
  }

  // ----- the builder -----

  method BuildEntries(bases: seq<Base>, cs: seq<Candidate>, digest: Digest)
    returns (r: Option<seq<Entry>>)
    ensures r.Some? <==> Mentionable(bases, cs)
    ensures r.Some? ==> r.value == EntriesOf(bases, cs, digest)
  {
    var ids := PartitionComponents(bases, cs, digest);
    if ids.Err? {
      return None;
    }
    var entries := seq(|bases|, k requires 0 <= k < |bases| => Entry(bases[k], ids.value[k]));
    assert entries == Attach(bases, cs, digest);
    return Some(SortBy(entries, EntryBefore));
  }

  method FindCauses(es: seq<Entry>, cs: seq<Candidate>) returns (c: Causes)
    ensures c == CausesOf(es, cs)
  {
    var overlap := OverlapPass(es);
    var conflict := ConflictPass(es);
    var edges := EdgePass(es, cs);
    var mismatched, cyclic := EntryPass(es, cs, edges);
    var unproved := ConformancePass(es, cs);
    return Causes(overlap, conflict, mismatched, cyclic, unproved);
  }

  /** `buildPolicyReconciliationPlanV2` */
  method BuildPlan(i: Input, digest: Digest) returns (r: Result<Plan, BuildError>)
    ensures r == BuildSpec(i, digest)
  {
    var bad := InputError(i);
    if bad.Some? {
      return Err(bad.value);
    }
    var cs := Chosen(i);
    var bases := ClassifyAll(cs);
    if bases.Err? {
      return Err(bases.error);
    }
    var entries := BuildEntries(bases.value, cs, digest);
    if entries.None? {
      return Err(InvalidIdentifier);
    }
    var es := entries.value;
    var causes := FindCauses(es, cs);
    var causal := CausalSet(causes);
    var influence := InfluencePass(es, causal);
    var taints := CauseTaints(i, causes) + influence;
    var rows := ReasonTable(es);
    TaintsOrder();
    LessOrders();
    var taintReasons := SortedSet(taints, TaintBefore);
    var taintComponents := SortedSet(causal, Less);
    var counts := Counts(
      Count(es, IsWrite), Count(es, IsNoop), Count(es, IsUnchanged),
      Count(es, IsReplace), Count(es, IsInvalidate), Count(es, IsAlreadyApplied), rows);
    var plan := Plan(
      i.zone, i.fromPolicy, i.toPolicy, i.limit, i.total, |es|, i.total > i.limit, i.highWater, counts,
      taints == {}, taintReasons, taintComponents, SortBy(SourcesIn(es, causal), Less), es);
    assert plan == Draft(i, bases.value, digest);
    var ok := ValidatePlan(plan);
    return if ok then Ok(plan) else Err(PlanRejected);
  }
}
