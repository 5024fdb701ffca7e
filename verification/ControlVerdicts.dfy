/** One rule-aware verdict over a set of evidence rows (control_verdict.py, event_status.py). */
module ControlVerdicts {
  import opened Orders
  import EvidenceFreshness

  datatype Verdict = Pass | Fail | Stale | NotEvaluated

  /** `status` is the source outcome, stripped and in lower case; `record` the row's freshness record. */
  datatype Event = Event(tenant: string, eventId: string, assetId: string, assetType: string, safeguardIds: seq<string>,
                         status: string, severity: string, score: int, hasRef: bool, available: bool,
                         rawSha256: string, record: EvidenceFreshness.Record)

  datatype Outcome = Failing | Passing | Observed | Unknown

  /** `normalize_event_status`, grouped into the classes that evaluation distinguishes. */
  function OutcomeOf(event: Event): Outcome
  {
    if event.status in {"open", "failed", "blocked", "noncompliant", "fail", "failing", "non-compliant"} then Failing
    else if event.status in {"pass", "passed", "resolved", "closed", "compliant", "ok", "ready"} then Passing
    else if event.status == "observed" then Observed
    else Unknown
  }

  /** The facts a rule sees. */
  datatype Context = Context(controlId: string, openViolations: nat, events: nat, evidence: nat, maxSeverity: string, stale: bool)

  /** A rule either matches its failure predicate or not, with reasons. */
  datatype RuleResult = RuleResult(matched: bool, reasons: seq<string>)

  datatype VerdictResult = VerdictResult(status: Verdict, reasons: seq<string>)

  function Outcomes(): Event -> bool { (e: Event) => OutcomeOf(e) != Observed }

  function Failures(): Event -> bool { (e: Event) => OutcomeOf(e) == Failing }

  function WithEvidence(): Event -> bool { (e: Event) => e.hasRef && e.available }

  /** `max(failures, key=severity_score)`: the first of the highest. */
  function TopOpen(rows: seq<Event>): Event
    requires rows != []
  {
    if |rows| == 1 then rows[0]
    else
      var top := TopOpen(rows[..|rows| - 1]);
      if rows[|rows| - 1].score > top.score then rows[|rows| - 1] else top
  }

  function MaxSeverity(failures: seq<Event>): string
  {
    if failures == [] then "info" else TopOpen(failures).severity
  }

  predicate HasUnknown(rows: seq<Event>)
  {
    exists e :: e in rows && OutcomeOf(e) == Unknown
  }

  function ContextOf(controlId: string, rows: seq<Event>, stale: bool): Context
  {
    var outcomes := Filter(rows, Outcomes());
    var failures := Filter(outcomes, Failures());
    Context(controlId, |failures|, |outcomes|, |Filter(outcomes, WithEvidence())|, MaxSeverity(failures), stale)
  }

  /** The last branches, after the rule has run. */
  function Settle(result: RuleResult, failures: nat, outcomes: nat, evidence: nat, unknown: bool, stale: bool): VerdictResult
  {
    if result.matched && (failures > 0 || (outcomes > 0 && evidence == 0)) then VerdictResult(Fail, result.reasons)
    else if unknown || outcomes == 0 then
      VerdictResult(NotEvaluated, result.reasons +
                    [if unknown then "Source evidence has an unknown or unevaluated outcome."
                     else "Source evidence contains only observations, without an evaluated outcome."])
    else if stale || evidence == 0 then VerdictResult(Stale, result.reasons)
    else VerdictResult(if result.matched then Fail else Pass, result.reasons)
  }

  /** `evaluate_evidence_verdict`, for any rule. */
  function Evaluate(controlId: string, rows: seq<Event>, rule: Context -> RuleResult, stale: bool): VerdictResult
  {
    var c := ContextOf(controlId, rows, stale);
    Settle(rule(c), c.openViolations, c.events, c.evidence, HasUnknown(Filter(rows, Outcomes())), stale)
  }

  ghost predicate AnyOutcome(rows: seq<Event>) { exists e :: e in rows && OutcomeOf(e) != Observed }

  ghost predicate AnyFailure(rows: seq<Event>) { exists e :: e in rows && OutcomeOf(e) == Failing }

  ghost predicate AnyEvidence(rows: seq<Event>) { exists e :: e in rows && OutcomeOf(e) != Observed && e.hasRef && e.available }

  /** The counts a rule sees, in terms of the rows. */
  lemma CountsMean(controlId: string, rows: seq<Event>, stale: bool)
    ensures var c := ContextOf(controlId, rows, stale);
            && (c.events > 0 <==> AnyOutcome(rows))
            && (c.openViolations > 0 <==> AnyFailure(rows))
            && (c.evidence > 0 <==> AnyEvidence(rows))
            && (HasUnknown(Filter(rows, Outcomes())) <==> HasUnknown(rows))
  {
    FilterNonempty(rows, Outcomes());
    FailuresMean(rows);
    EvidenceMeans(rows);
    UnknownMeans(rows);
  }

  lemma FailuresMean(rows: seq<Event>)
    ensures |Filter(Filter(rows, Outcomes()), Failures())| > 0 <==> AnyFailure(rows)
  {
    var outcomes := Filter(rows, Outcomes());
    FilterNonempty(outcomes, Failures());
    if e :| e in rows && OutcomeOf(e) == Failing { assert e in outcomes; }
  }

  lemma EvidenceMeans(rows: seq<Event>)
    ensures |Filter(Filter(rows, Outcomes()), WithEvidence())| > 0 <==> AnyEvidence(rows)
  {
    var outcomes := Filter(rows, Outcomes());
    FilterNonempty(outcomes, WithEvidence());
    if e :| e in rows && OutcomeOf(e) != Observed && e.hasRef && e.available { assert e in outcomes; }
  }

  lemma UnknownMeans(rows: seq<Event>)
    ensures HasUnknown(Filter(rows, Outcomes())) <==> HasUnknown(rows)
  {
    if e :| e in rows && OutcomeOf(e) == Unknown { assert e in Filter(rows, Outcomes()); }
  }

  /** What the rule is told, in terms of the rows: exact counts, and the severity of a failing row that none outscores. */
  lemma ContextMeaning(controlId: string, rows: seq<Event>, stale: bool)
    ensures var c := ContextOf(controlId, rows, stale);
            && c.controlId == controlId && c.stale == stale
            && c.openViolations == |Filter(rows, (e: Event) => OutcomeOf(e) == Failing)|
            && c.events == |Filter(rows, (e: Event) => OutcomeOf(e) != Observed)|
            && c.evidence == |Filter(rows, (e: Event) => OutcomeOf(e) != Observed && e.hasRef && e.available)|
            && (AnyFailure(rows) ==>
                  exists e :: e in rows && OutcomeOf(e) == Failing && c.maxSeverity == e.severity
                              && forall other :: other in rows && OutcomeOf(other) == Failing ==> other.score <= e.score)
            && (!AnyFailure(rows) ==> c.maxSeverity == "info")
  {
    var outcomes := Filter(rows, Outcomes());
    FilterFilter(rows, Outcomes(), Failures());
    FilterSame(rows, Failures(), (e: Event) => OutcomeOf(e) == Failing);
    FilterSame(rows, Outcomes(), (e: Event) => OutcomeOf(e) != Observed);
    FilterBoth(rows, Outcomes(), WithEvidence(), (e: Event) => OutcomeOf(e) != Observed && e.hasRef && e.available);
    SeverityMeans(rows);
  }

  lemma SeverityMeans(rows: seq<Event>)
    ensures var failures := Filter(Filter(rows, Outcomes()), Failures());
            && (AnyFailure(rows) ==>
                  exists e :: e in rows && OutcomeOf(e) == Failing && MaxSeverity(failures) == e.severity
                              && forall other :: other in rows && OutcomeOf(other) == Failing ==> other.score <= e.score)
            && (!AnyFailure(rows) ==> MaxSeverity(failures) == "info")
  {
    var failures := Filter(Filter(rows, Outcomes()), Failures());
    FailuresMean(rows);
    assert forall e :: e in failures <==> e in rows && OutcomeOf(e) == Failing;
    if failures != [] {
      TopOpenIsMax(failures);
      var top := TopOpen(failures);
      assert top in rows && OutcomeOf(top) == Failing && MaxSeverity(failures) == top.severity;
    }
  }

  lemma {:induction false} FilterBoth(rows: seq<Event>, p: Event -> bool, q: Event -> bool, both: Event -> bool)
    requires forall e :: both(e) <==> p(e) && q(e)
    ensures Filter(Filter(rows, p), q) == Filter(rows, both)
  {
    if rows != [] {
      FilterBoth(rows[1..], p, q, both);
      if p(rows[0]) {
        var kept := Filter(rows[1..], p);
        assert ([rows[0]] + kept)[1..] == kept;
      }
    }
  }

  /** Open evidence is a failure, under any of its spellings; a spelling outside the lists is unknown, and never a pass. */
  lemma OutcomeMeaning(e: Event)
    ensures (e.status == "open" || e.status == "failed" || e.status == "blocked" || e.status == "noncompliant"
             || e.status == "fail" || e.status == "failing" || e.status == "non-compliant") <==> OutcomeOf(e) == Failing
    ensures (e.status == "pass" || e.status == "passed" || e.status == "resolved" || e.status == "closed"
             || e.status == "compliant" || e.status == "ok" || e.status == "ready") <==> OutcomeOf(e) == Passing
    ensures OutcomeOf(e) == Observed <==> e.status == "observed"
  {
    assert |"open"| == 4 && |"pass"| == 4 && "open"[0] == 'o' && "pass"[0] == 'p';
  }

  /** A pass needs the rule to hold, fresh evidence, at least one outcome with evidence, and no unknown outcome. */
  lemma PassIff(controlId: string, rows: seq<Event>, rule: Context -> RuleResult, stale: bool)
    ensures Evaluate(controlId, rows, rule, stale).status == Pass <==>
            && !rule(ContextOf(controlId, rows, stale)).matched
            && !stale && AnyEvidence(rows) && !HasUnknown(rows)
  {
    CountsMean(controlId, rows, stale);
  }

  /** A matched failure predicate is reported as a failure when a row fails or no outcome has evidence,
      and otherwise only when the outcomes are all known and fresh. */
  lemma FailIff(controlId: string, rows: seq<Event>, rule: Context -> RuleResult, stale: bool)
    ensures Evaluate(controlId, rows, rule, stale).status == Fail <==>
            && rule(ContextOf(controlId, rows, stale)).matched
            && AnyOutcome(rows)
            && (AnyFailure(rows) || !AnyEvidence(rows) || (!HasUnknown(rows) && !stale))
  {
    CountsMean(controlId, rows, stale);
    assert AnyFailure(rows) ==> AnyOutcome(rows);
  }

  /** Without a failure, a verdict is open exactly when an outcome is unknown or there is none, and stale when the evidence is
      stale or unavailable. */
  lemma OpenIff(controlId: string, rows: seq<Event>, rule: Context -> RuleResult, stale: bool)
    ensures var status, matched := Evaluate(controlId, rows, rule, stale).status, rule(ContextOf(controlId, rows, stale)).matched;
            && (status == NotEvaluated <==>
                  && (HasUnknown(rows) || !AnyOutcome(rows))
                  && !(matched && (AnyFailure(rows) || (AnyOutcome(rows) && !AnyEvidence(rows)))))
            && (status == Stale <==>
                  && AnyOutcome(rows) && !HasUnknown(rows) && (stale || !AnyEvidence(rows))
                  && !(matched && (AnyFailure(rows) || !AnyEvidence(rows))))
  {
    CountsMean(controlId, rows, stale);
  }

  lemma SettleReasons(result: RuleResult, failures: nat, outcomes: nat, evidence: nat, unknown: bool, stale: bool)
    ensures var r := Settle(result, failures, outcomes, evidence, unknown, stale);
            if r.status != NotEvaluated then r.reasons == result.reasons
            else if unknown then r.reasons == result.reasons + ["Source evidence has an unknown or unevaluated outcome."]
            else r.reasons == result.reasons + ["Source evidence contains only observations, without an evaluated outcome."]
  {
  }

  /** An open verdict says which of the two it is; all others carry the rule's reasons. */
  lemma ReasonsMeaning(controlId: string, rows: seq<Event>, rule: Context -> RuleResult, stale: bool)
    ensures var r, reasons := Evaluate(controlId, rows, rule, stale), rule(ContextOf(controlId, rows, stale)).reasons;
            if r.status != NotEvaluated then r.reasons == reasons
            else if HasUnknown(rows) then r.reasons == reasons + ["Source evidence has an unknown or unevaluated outcome."]
            else r.reasons == reasons + ["Source evidence contains only observations, without an evaluated outcome."]
  {
    var c := ContextOf(controlId, rows, stale);
    UnknownMeans(rows);
    SettleReasons(rule(c), c.openViolations, c.events, c.evidence, HasUnknown(rows), stale);
  }

  ghost predicate IsFirstHighest(rows: seq<Event>, i: int)
  {
    && 0 <= i < |rows|
    && (forall j :: 0 <= j < i ==> rows[j].score < rows[i].score)
    && (forall j :: i <= j < |rows| ==> rows[j].score <= rows[i].score)
  }

  /** Among failing rows of the highest score, the severity told to the rule is that of the first. */
  lemma {:induction false} FirstOfHighest(rows: seq<Event>) returns (i: nat)
    requires rows != []
    ensures IsFirstHighest(rows, i) && MaxSeverity(rows) == rows[i].severity && rows[i] == TopOpen(rows)
  {
    var n := |rows| - 1;
    i := n;
    if n > 0 {
      var front := rows[..n];
      var top := FirstOfHighest(front);
      assert forall j :: 0 <= j < n ==> front[j] == rows[j];
      if rows[n].score <= front[top].score { i := top; }
    }
  }

  // ------------------------------------------------------------- order-blindness

  ghost predicate ScoreFixesSeverity(rows: seq<Event>)
  {
    forall a, b :: a in rows && b in rows && a.score == b.score ==> a.severity == b.severity
  }

  lemma {:induction false} TopOpenIsMax(rows: seq<Event>)
    requires rows != []
    ensures TopOpen(rows) in rows && forall e :: e in rows ==> e.score <= TopOpen(rows).score
  {
    if |rows| > 1 {
      var n := |rows| - 1;
      TopOpenIsMax(rows[..n]);
      assert rows == rows[..n] + [rows[n]];
    }
  }

  lemma SeverityIgnoresOrder(a: seq<Event>, b: seq<Event>)
    requires multiset(a) == multiset(b) && ScoreFixesSeverity(a)
    ensures MaxSeverity(a) == MaxSeverity(b)
  {
    MultisetMembers(a, b);
    if a != [] {
      TopOpenIsMax(a);
      TopOpenIsMax(b);
      assert TopOpen(b) in a && TopOpen(a) in b;
    }
  }

  /** The verdict depends on the rows as a multiset only. */
  lemma VerdictIgnoresOrder(controlId: string, a: seq<Event>, b: seq<Event>, rule: Context -> RuleResult, stale: bool)
    requires multiset(a) == multiset(b) && ScoreFixesSeverity(a)
    ensures Evaluate(controlId, a, rule, stale) == Evaluate(controlId, b, rule, stale)
  {
    var x, y := Filter(a, Outcomes()), Filter(b, Outcomes());
    FilterMultiset(a, b, Outcomes());
    MultisetMembers(x, y);
    FilterMultiset(x, y, Failures());
    MultisetMembers(Filter(x, Failures()), Filter(y, Failures()));
    FilterMultiset(x, y, WithEvidence());
    MultisetMembers(Filter(x, WithEvidence()), Filter(y, WithEvidence()));
    SeverityIgnoresOrder(Filter(x, Failures()), Filter(y, Failures()));
  }
}
