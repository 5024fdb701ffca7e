/** Framework scores, the weighted posture score and the posture state (assessment.py). Scores are in hundredths. */
module PostureScore {
  import opened Arithmetic
  import opened Dicts
  import opened Orders
  import opened Outcomes
  import opened Text

  /** `risk` and `openEvents` are the materialised aggregates, 0 where they are missing. */
  datatype Control = Control(controlId: string, framework: string, status: string, risk: int, openEvents: nat)

  datatype Violation = Violation(controlId: string, severity: string)

  datatype RiskCounts = RiskCounts(violations: nat, critical: nat, high: nat)

  datatype FrameworkRow = FrameworkRow(framework: string, score: nat, ready: bool,
                                       controls: nat, failing: nat, passing: nat, stale: nat, unknown: nat, counts: RiskCounts)

  /** `round(n / d)` with ties to the even neighbour, on exact quotients. */
  function RoundHalfEven(n: nat, d: nat): nat
    requires d > 0
  {
    var q, r := n / d, n % d;
    if 2 * r < d then q else if 2 * r > d then q + 1 else q + q % 2
  }

  /** `round(100 * passing / total, 2)` in hundredths, and 0 for nothing evaluated. */
  function Score(passing: nat, total: nat): nat
  {
    if total == 0 then 0 else RoundHalfEven(10000 * passing, total)
  }

  function Passing(stale: set<string>): Control -> bool
  {
    (c: Control) => c.status == "pass" && c.controlId !in stale
  }

  function Failing(): Control -> bool { (c: Control) => c.status == "fail" }

  function Stale(stale: set<string>): Control -> bool
  {
    (c: Control) => c.controlId in stale || c.status == "stale"
  }

  function Unknown(): Control -> bool { (c: Control) => c.status !in {"pass", "fail", "stale"} }

  function InFramework(framework: string): Control -> bool { (c: Control) => c.framework == framework }

  function Count(controls: seq<Control>, p: Control -> bool): nat { |Filter(controls, p)| }

  /** Frameworks in order of first appearance: the keys of `grouped`. */
  function Frameworks(controls: seq<Control>): seq<string> { FirstSeen(controls, FrameworkOf) }

  function FrameworkOf(c: Control): string { c.framework }

  // -------------------------------------------------------- violation counts

  const CRITICAL_SCORE := 100
  const HIGH_SCORE := 80

  function OfControl(id: string): Violation -> bool { (v: Violation) => v.controlId == id }

  function Severe(severity: string): Violation -> bool { (v: Violation) => v.severity == severity }

  /** `min(risk_score, 100)` */
  function Capped(c: Control): int { if c.risk < 100 then c.risk else 100 }

  function FailsBetween(low: int, high: int): Control -> bool
  {
    (c: Control) => c.status == "fail" && low <= Capped(c) < high
  }

  function OpenEvents(members: seq<Control>): nat
  {
    if members == [] then 0 else OpenEvents(members[..|members| - 1]) + members[|members| - 1].openEvents
  }

  /** The violations of each member in turn. */
  function Detail(members: seq<Control>, violations: seq<Violation>): seq<Violation>
  {
    if members == [] then []
    else Detail(members[..|members| - 1], violations) + Filter(violations, OfControl(members[|members| - 1].controlId))
  }

  /** Counted from the violations where they are given, else from the controls' own aggregates. */
  function CountsOf(members: seq<Control>, detail: Option<seq<Violation>>): RiskCounts
  {
    match detail
    case None =>
      RiskCounts(OpenEvents(members), Count(members, FailsBetween(CRITICAL_SCORE, 101)), Count(members, FailsBetween(HIGH_SCORE, CRITICAL_SCORE)))
    case Some(violations) =>
      var rows := Detail(members, violations);
      RiskCounts(|rows|, |Filter(rows, Severe("critical"))|, |Filter(rows, Severe("high"))|)
  }

  function RowFor(framework: string, members: seq<Control>, detail: Option<seq<Violation>>, stale: set<string>): FrameworkRow
  {
    var total, passing := |members|, Count(members, Passing(stale));
    FrameworkRow(framework, Score(passing, total), passing == total, total,
                 Count(members, Failing()), passing, Count(members, Stale(stale)), Count(members, Unknown()),
                 CountsOf(members, detail))
  }

  function GroupRow(controls: seq<Control>, detail: Option<seq<Violation>>, stale: set<string>): string -> FrameworkRow
  {
    (framework: string) => RowFor(framework, Filter(controls, InFramework(framework)), detail, stale)
  }

  predicate ScoreLe(a: FrameworkRow, b: FrameworkRow)
  {
    a.score < b.score || (a.score == b.score && StrLe(a.framework, b.framework))
  }

  function FrameworkRows(controls: seq<Control>, detail: Option<seq<Violation>>, stale: set<string>): seq<FrameworkRow>
  {
    SortBy(Map(Frameworks(controls), GroupRow(controls, detail, stale)), ScoreLe)
  }

  /** `_framework_scores`: group the controls, then one row per framework. */
  method FrameworkScores(controls: seq<Control>, detail: Option<seq<Violation>>, stale: set<string>) returns (rows: seq<FrameworkRow>)
    ensures rows == FrameworkRows(controls, detail, stale)
  {
    var byControl := ByControl(if detail.Some? then detail.value else []);
    var names, grouped := Group(controls);
    var unsorted := RowsFrom(names, grouped, detail, byControl, stale);
    assert unsorted == Map(names, GroupRow(controls, detail, stale));
    rows := SortBy(unsorted, ScoreLe);
  }

  function Held(byControl: map<string, seq<Violation>>, id: string): seq<Violation>
  {
    if id in byControl then byControl[id] else []
  }

  /** The `violations_by_control` defaultdict. */
  method ByControl(violations: seq<Violation>) returns (byControl: map<string, seq<Violation>>)
    ensures forall id :: Held(byControl, id) == Filter(violations, OfControl(id))
  {
    byControl := map[];
    for i := 0 to |violations|
      invariant forall id :: Held(byControl, id) == Filter(violations[..i], OfControl(id))
    {
      var v := violations[i];
      forall id ensures Filter(violations[..i + 1], OfControl(id))
                     == Filter(violations[..i], OfControl(id)) + if id == v.controlId then [v] else []
      {
        FilterNext(violations, i, OfControl(id));
      }
      byControl := byControl[v.controlId := Held(byControl, v.controlId) + [v]];
    }
    assert violations[..|violations|] == violations;
  }

  method CountRisk(members: seq<Control>, detail: Option<seq<Violation>>, byControl: map<string, seq<Violation>>) returns (counts: RiskCounts)
    requires detail.Some? ==> forall id :: Held(byControl, id) == Filter(detail.value, OfControl(id))
    ensures counts == CountsOf(members, detail)
  {
    if detail.None? {
      counts := CountsOf(members, None);
    } else {
      var rows: seq<Violation> := [];
      for i := 0 to |members|
        invariant rows == Detail(members[..i], detail.value)
      {
        assert members[..i + 1][..i] == members[..i];
        rows := rows + Held(byControl, members[i].controlId);
      }
      assert members[..|members|] == members;
      counts := RiskCounts(|rows|, |Filter(rows, Severe("critical"))|, |Filter(rows, Severe("high"))|);
    }
  }

  method RowsFrom(names: seq<string>, grouped: map<string, seq<Control>>, detail: Option<seq<Violation>>,
                  byControl: map<string, seq<Violation>>, stale: set<string>) returns (rows: seq<FrameworkRow>)
    requires forall name :: name in names ==> name in grouped
    requires detail.Some? ==> forall id :: Held(byControl, id) == Filter(detail.value, OfControl(id))
    ensures |rows| == |names|
    ensures forall j :: 0 <= j < |names| ==> rows[j] == RowFor(names[j], grouped[names[j]], detail, stale)
  {
    rows := [];
    for j := 0 to |names|
      invariant |rows| == j
      invariant forall i :: 0 <= i < j ==> rows[i] == RowFor(names[i], grouped[names[i]], detail, stale)
    {
      var members := grouped[names[j]];
      var counts := CountRisk(members, detail, byControl);
      var total, passing := |members|, Count(members, Passing(stale));
      rows := rows + [FrameworkRow(names[j], Score(passing, total), passing == total, total, Count(members, Failing()), passing,
                                   Count(members, Stale(stale)), Count(members, Unknown()), counts)];
    }
  }

  /** The `grouped` defaultdict and its key order. */
  method Group(controls: seq<Control>) returns (names: seq<string>, grouped: map<string, seq<Control>>)
    ensures names == Frameworks(controls)
    ensures forall name :: name in grouped <==> name in names
    ensures forall name :: name in grouped ==> grouped[name] == Filter(controls, InFramework(name))
  {
    names, grouped := [], map[];
    for i := 0 to |controls|
      invariant names == Frameworks(controls[..i])
      invariant forall name :: name in grouped <==> name in names
      invariant forall name :: name in grouped ==> grouped[name] == Filter(controls[..i], InFramework(name))
    {
      var control := controls[i];
      GroupStep(controls, i);
      if control.framework in grouped {
        grouped := grouped[control.framework := grouped[control.framework] + [control]];
      } else {
        names := names + [control.framework];
        grouped := grouped[control.framework := [control]];
      }
    }
    assert controls[..|controls|] == controls;
  }

  lemma GroupStep(controls: seq<Control>, i: nat)
    requires i < |controls|
    ensures var name := controls[i].framework; var names := Frameworks(controls[..i]);
            && Frameworks(controls[..i + 1]) == (if name in names then names else names + [name])
            && (name !in names ==> Filter(controls[..i], InFramework(name)) == [])
            && (forall other :: Filter(controls[..i + 1], InFramework(other))
                                == Filter(controls[..i], InFramework(other)) + if other == name then [controls[i]] else [])
  {
    var name := controls[i].framework;
    assert controls[..i + 1][..i] == controls[..i];
    FrameworksCover(controls[..i]);
    if name !in Frameworks(controls[..i]) {
      FilterNone(controls[..i], InFramework(name));
    }
    forall other ensures Filter(controls[..i + 1], InFramework(other))
                         == Filter(controls[..i], InFramework(other)) + if other == name then [controls[i]] else []
    {
      FilterNext(controls, i, InFramework(other));
    }
  }

  lemma FrameworksCover(controls: seq<Control>)
    ensures Distinct(Frameworks(controls))
    ensures forall c :: c in controls ==> c.framework in Frameworks(controls)
  {
    FirstSeenFacts(controls, FrameworkOf);
    assert forall c :: c in controls ==> FrameworkOf(c) == c.framework;
  }

  // ------------------------------------------------------------ whole posture

  function ControlTotal(rows: seq<FrameworkRow>): nat
  {
    if rows == [] then 0 else rows[0].controls + ControlTotal(rows[1..])
  }

  function PassingTotal(rows: seq<FrameworkRow>): nat
  {
    if rows == [] then 0 else rows[0].passing + PassingTotal(rows[1..])
  }

  /** `_weighted_posture_score` */
  function WeightedScore(rows: seq<FrameworkRow>): nat { Score(PassingTotal(rows), ControlTotal(rows)) }

  lemma {:induction false} InsertTotals(x: FrameworkRow, rows: seq<FrameworkRow>)
    ensures ControlTotal(InsertBy(x, rows, ScoreLe)) == x.controls + ControlTotal(rows)
    ensures PassingTotal(InsertBy(x, rows, ScoreLe)) == x.passing + PassingTotal(rows)
  {
    if rows != [] {
      if ScoreLe(x, rows[0]) {
        assert ([x] + rows)[1..] == rows;
      } else {
        InsertTotals(x, rows[1..]);
        assert ([rows[0]] + InsertBy(x, rows[1..], ScoreLe))[1..] == InsertBy(x, rows[1..], ScoreLe);
      }
    }
  }

  lemma {:induction false} SortTotals(rows: seq<FrameworkRow>)
    ensures ControlTotal(SortBy(rows, ScoreLe)) == ControlTotal(rows)
    ensures PassingTotal(SortBy(rows, ScoreLe)) == PassingTotal(rows)
  {
    if rows != [] {
      SortTotals(rows[1..]);
      InsertTotals(rows[0], SortBy(rows[1..], ScoreLe));
    }
  }

  function AmongFrameworks(names: seq<string>): Control -> bool { (c: Control) => c.framework in names }

  function And(p: Control -> bool, q: Control -> bool): Control -> bool { (c: Control) => p(c) && q(c) }

  lemma {:induction false} FilterTwice(controls: seq<Control>, p: Control -> bool, q: Control -> bool)
    ensures Filter(Filter(controls, p), q) == Filter(controls, And(p, q))
  {
    if controls != [] {
      FilterTwice(controls[1..], p, q);
      if p(controls[0]) { assert Filter(controls, p)[1..] == Filter(controls[1..], p); }
    }
  }

  /** Grouping loses and duplicates nothing. */
  lemma {:induction false} GroupTotals(controls: seq<Control>, detail: Option<seq<Violation>>, stale: set<string>, names: seq<string>)
    requires Distinct(names)
    ensures ControlTotal(Map(names, GroupRow(controls, detail, stale))) == Count(controls, AmongFrameworks(names))
    ensures PassingTotal(Map(names, GroupRow(controls, detail, stale))) == Count(controls, And(AmongFrameworks(names), Passing(stale)))
  {
    if names == [] {
      FilterNone(controls, AmongFrameworks(names));
      FilterNone(controls, And(AmongFrameworks(names), Passing(stale)));
    } else {
      var name, rest := names[0], names[1..];
      GroupTotals(controls, detail, stale, rest);
      assert Map(names, GroupRow(controls, detail, stale))[1..] == Map(rest, GroupRow(controls, detail, stale));
      assert forall n :: n in names <==> n == name || n in rest;
      FilterDisjoint(controls, InFramework(name), AmongFrameworks(rest), AmongFrameworks(names));
      FilterDisjoint(controls, And(InFramework(name), Passing(stale)), And(AmongFrameworks(rest), Passing(stale)),
                    And(AmongFrameworks(names), Passing(stale)));
      FilterTwice(controls, InFramework(name), Passing(stale));
    }
  }

  /** The posture score is the share of current passes among all controls, however frameworks split them. */
  lemma WeightedScoreIgnoresGrouping(controls: seq<Control>, detail: Option<seq<Violation>>, stale: set<string>)
    ensures WeightedScore(FrameworkRows(controls, detail, stale)) == Score(Count(controls, Passing(stale)), |controls|)
  {
    var names := Frameworks(controls);
    FrameworksCover(controls);
    SortTotals(Map(names, GroupRow(controls, detail, stale)));
    GroupTotals(controls, detail, stale, names);
    FilterAll(controls, AmongFrameworks(names));
    FilterSame(controls, And(AmongFrameworks(names), Passing(stale)), Passing(stale));
  }

  function ViolationTotal(rows: seq<FrameworkRow>): nat
  {
    if rows == [] then 0 else rows[0].counts.violations + ViolationTotal(rows[1..])
  }

  lemma {:induction false} DetailSplits(members: seq<Control>, p: Control -> bool, q: Control -> bool, r: Control -> bool, violations: seq<Violation>)
    requires forall c :: c in members ==> (r(c) <==> p(c) || q(c)) && !(p(c) && q(c))
    ensures |Detail(Filter(members, r), violations)| == |Detail(Filter(members, p), violations)| + |Detail(Filter(members, q), violations)|
  {
    if members != [] {
      var n := |members| - 1;
      assert members == members[..n] + [members[n]];
      assert members[n] in members && forall c :: c in members[..n] ==> c in members;
      DetailSplits(members[..n], p, q, r, violations);
      DetailNext(members, n, p, violations);
      DetailNext(members, n, q, violations);
      DetailNext(members, n, r, violations);
    }
  }

  lemma DetailNext(members: seq<Control>, n: nat, p: Control -> bool, violations: seq<Violation>)
    requires |members| == n + 1
    ensures |Detail(Filter(members, p), violations)|
         == |Detail(Filter(members[..n], p), violations)| + if p(members[n]) then |Filter(violations, OfControl(members[n].controlId))| else 0
  {
    FilterNext(members, n, p);
    assert members[..n + 1] == members;
    var kept := Filter(members[..n], p);
    assert kept + [] == kept && (kept + [members[n]])[..|kept|] == kept;
  }

  lemma {:induction false} GroupedDetail(controls: seq<Control>, violations: seq<Violation>, stale: set<string>, names: seq<string>)
    requires Distinct(names)
    ensures ViolationTotal(Map(names, GroupRow(controls, Some(violations), stale))) == |Detail(Filter(controls, AmongFrameworks(names)), violations)|
  {
    if names == [] {
      FilterNone(controls, AmongFrameworks(names));
    } else {
      var name, rest := names[0], names[1..];
      GroupedDetail(controls, violations, stale, rest);
      assert Map(names, GroupRow(controls, Some(violations), stale))[1..] == Map(rest, GroupRow(controls, Some(violations), stale));
      assert forall n :: n in names <==> n == name || n in rest;
      DetailSplits(controls, InFramework(name), AmongFrameworks(rest), AmongFrameworks(names), violations);
    }
  }

  lemma {:induction false} InsertViolations(x: FrameworkRow, rows: seq<FrameworkRow>)
    ensures ViolationTotal(InsertBy(x, rows, ScoreLe)) == x.counts.violations + ViolationTotal(rows)
  {
    if rows != [] {
      if ScoreLe(x, rows[0]) {
        assert ([x] + rows)[1..] == rows;
      } else {
        InsertViolations(x, rows[1..]);
        assert ([rows[0]] + InsertBy(x, rows[1..], ScoreLe))[1..] == InsertBy(x, rows[1..], ScoreLe);
      }
    }
  }

  lemma {:induction false} SortViolations(rows: seq<FrameworkRow>)
    ensures ViolationTotal(SortBy(rows, ScoreLe)) == ViolationTotal(rows)
  {
    if rows != [] {
      SortViolations(rows[1..]);
      InsertViolations(rows[0], SortBy(rows[1..], ScoreLe));
    }
  }

  function OfAny(controls: seq<Control>): Violation -> bool
  {
    (v: Violation) => exists c :: c in controls && c.controlId == v.controlId
  }

  /** With one control per id, the members' violations are those of the listed controls, each once. */
  lemma {:induction false} DetailIsFilter(controls: seq<Control>, violations: seq<Violation>)
    requires forall i, j :: 0 <= i < j < |controls| ==> controls[i].controlId != controls[j].controlId
    ensures |Detail(controls, violations)| == |Filter(violations, OfAny(controls))|
  {
    if controls == [] {
      FilterNone(violations, OfAny(controls));
    } else {
      var n := |controls| - 1;
      DetailIsFilter(controls[..n], violations);
      assert controls == controls[..n] + [controls[n]];
      assert forall c :: c in controls <==> c in controls[..n] || c == controls[n];
      FilterDisjoint(violations, OfAny(controls[..n]), OfControl(controls[n].controlId), OfAny(controls));
    }
  }

  /** The framework rows account for every violation of a listed control exactly once. */
  lemma ViolationsAreConserved(controls: seq<Control>, violations: seq<Violation>, stale: set<string>)
    requires forall i, j :: 0 <= i < j < |controls| ==> controls[i].controlId != controls[j].controlId
    ensures ViolationTotal(FrameworkRows(controls, Some(violations), stale)) == |Filter(violations, OfAny(controls))|
  {
    var names := Frameworks(controls);
    FrameworksCover(controls);
    SortViolations(Map(names, GroupRow(controls, Some(violations), stale)));
    GroupedDetail(controls, violations, stale, names);
    FilterAll(controls, AmongFrameworks(names));
    DetailIsFilter(controls, violations);
  }

  // ---------------------------------------------------------------- rounding

  /** The rounded quotient is within half a unit of the exact one. */
  lemma RoundIsNearest(n: nat, d: nat)
    requires d > 0
    ensures var q := RoundHalfEven(n, d); 2 * n - d <= 2 * (q * d) <= 2 * n + d
  {
    var q, r := n / d, n % d;
    assert n == q * d + r;
    assert (q + 1) * d == q * d + d;
  }

  /** On an exact tie the result is even. */
  lemma TieIsEven(n: nat, d: nat)
    requires d > 0 && 2 * (n % d) == d
    ensures RoundHalfEven(n, d) % 2 == 0
  {
  }

  lemma RoundMonotone(n: nat, d: nat, n': nat, d': nat)
    requires d > 0 && d' > 0 && n * d' <= n' * d
    ensures RoundHalfEven(n, d) <= RoundHalfEven(n', d')
  {
    var a, b := RoundHalfEven(n, d), RoundHalfEven(n', d');
    if a > b {
      RoundIsNearest(n, d);
      RoundIsNearest(n', d');
      BothTied(n, d, n', d', a, b);
    }
  }

  /** Rounding up past `b` on the smaller quotient puts both quotients on the same tie. */
  lemma BothTied(n: nat, d: nat, n': nat, d': nat, a: nat, b: nat)
    requires d > 0 && d' > 0 && n * d' <= n' * d && a > b
    requires 2 * (a * d) <= 2 * n + d && 2 * n' - d' <= 2 * (b * d')
    ensures n / d == b == n' / d' && 2 * (n % d) == d && 2 * (n' % d') == d'
  {
    var e := d * d';
    ScaleUpper(n, d, d', a);
    ScaleLower(n', d', d, b);
    assert d' * d == e;
    NextInteger(a, b, e, n * d', n' * d);
    TieQuotient(n, d, b, d');
    TieQuotient(n', d', b, d);
  }

  lemma ScaleUpper(n: nat, d: nat, c: nat, a: nat)
    requires 2 * (a * d) <= 2 * n + d
    ensures 2 * (a * (d * c)) <= 2 * (n * c) + d * c
  {
    MulLe(c, 2 * (a * d), 2 * n + d);
    assert (2 * (a * d)) * c == 2 * (a * (d * c));
    assert (2 * n + d) * c == 2 * (n * c) + d * c;
  }

  lemma ScaleLower(n: nat, d: nat, c: nat, b: nat)
    requires 2 * n - d <= 2 * (b * d)
    ensures 2 * (n * c) - d * c <= 2 * (b * (d * c))
  {
    MulLe(c, 2 * n - d, 2 * (b * d));
    assert (2 * n - d) * c == 2 * (n * c) - d * c;
    assert (2 * (b * d)) * c == 2 * (b * (d * c));
  }

  /** Bounds that leave room for one step only, and only when both quotients sit on the same tie. */
  lemma NextInteger(a: nat, b: nat, e: nat, x: nat, y: nat)
    requires e > 0 && a > b && x <= y
    requires 2 * (a * e) <= 2 * x + e && 2 * y - e <= 2 * (b * e)
    ensures a == b + 1 && x == y && 2 * x == 2 * (b * e) + e
  {
    assert (b + 2) * e == b * e + 2 * e;
    if a >= b + 2 {
      MulLe(e, b + 2, a);
    }
    assert (b + 1) * e == b * e + e;
  }

  /** 2 n c == (2b + 1) d c means n is exactly b and a half times d. */
  lemma TieQuotient(n: nat, d: nat, b: nat, c: nat)
    requires d > 0 && c > 0 && 2 * (n * c) == 2 * (b * (d * c)) + d * c
    ensures n / d == b && 2 * (n % d) == d
  {
    assert (2 * n) * c == (2 * (b * d) + d) * c;
    CancelFactor(2 * n, 2 * (b * d) + d, c);
    var r := n - b * d;
    assert n == b * d + r && 2 * r == d;
    DivisionIsUnique(n, d, b, r);
  }

  lemma CancelFactor(x: int, y: int, c: nat)
    requires c > 0 && x * c == y * c
    ensures x == y
  {
    if x < y { MulLe(c, x + 1, y); }
    if y < x { MulLe(c, y + 1, x); }
  }

  lemma DivisionIsUnique(n: nat, d: nat, q: nat, r: int)
    requires 0 <= r < d && n == q * d + r
    ensures n / d == q && n % d == r
  {
    var q', r' := n / d, n % d;
    assert n == q' * d + r';
    assert (q' + 1) * d == q' * d + d && (q + 1) * d == q * d + d;
    if q > q' {
      MulLe(d, q' + 1, q);
    } else if q < q' {
      MulLe(d, q + 1, q');
    }
  }

  /** Adding a control that is not a current pass never raises the score. */
  lemma FailureNeverImproves(controls: seq<Control>, stale: set<string>, added: Control)
    requires !Passing(stale)(added) && controls != []
    ensures Score(Count(controls + [added], Passing(stale)), |controls + [added]|) <= Score(Count(controls, Passing(stale)), |controls|)
  {
    FilterAppend(controls, [added], Passing(stale));
    assert Filter(controls, Passing(stale)) + [] == Filter(controls, Passing(stale));
    ScoreFalls(Count(controls, Passing(stale)), |controls|);
  }

  lemma ScoreFalls(passing: nat, total: nat)
    requires total > 0
    ensures Score(passing, total + 1) <= Score(passing, total)
  {
    var n := 10000 * passing;
    assert n * (total + 1) == n * total + n;
    RoundMonotone(n, total + 1, n, total);
  }

  // -------------------------------------------------------------------- state

  datatype PostureState = Critical | AttentionRequired | Ready

  /** `_posture_state` */
  function StateOf(score: nat, critical: bool, flagged: set<string>): PostureState
  {
    if critical then Critical else if score < 10000 || flagged != {} then AttentionRequired else Ready
  }

  /** A full score means every control passes, or the others are at most one in twenty thousand. */
  lemma FullScoreIff(passing: nat, total: nat)
    requires passing <= total && total > 0
    ensures Score(passing, total) >= 10000 <==> 20000 * (total - passing) <= total
  {
    var gap := total - passing;
    if gap == 0 {
      DivisionIsUnique(10000 * passing, total, 10000, 0);
    } else if 10000 * gap <= total {
      DivisionIsUnique(10000 * passing, total, 9999, total - 10000 * gap);
    } else {
      QuotientBelow(10000 * passing, total, 9999);
    }
  }

  lemma QuotientBelow(n: nat, d: nat, q: nat)
    requires d > 0 && n < q * d
    ensures n / d < q
  {
    var q' := n / d;
    assert n == q' * d + n % d;
    if q <= q' {
      MulLe(d, q, q');
    }
  }

  /** The posture reads "ready" exactly when nothing is critical, stale or unevaluated and
      fewer than one control in twenty thousand (or exactly one) is not a current pass. */
  lemma ReadyIff(controls: seq<Control>, detail: Option<seq<Violation>>, stale: set<string>, critical: bool, flagged: set<string>)
    requires controls != []
    ensures var passing := Count(controls, Passing(stale));
            StateOf(WeightedScore(FrameworkRows(controls, detail, stale)), critical, flagged).Ready?
            <==> !critical && flagged == {} && 20000 * (|controls| - passing) <= |controls|
  {
    WeightedFullIff(controls, detail, stale);
    ReadyMeans(WeightedScore(FrameworkRows(controls, detail, stale)), critical, flagged);
  }

  /** The posture is critical exactly when there is a critical violation, and asks for attention exactly when there is none but
      a control is flagged or too many controls are no current pass. */
  lemma OtherStatesIff(controls: seq<Control>, detail: Option<seq<Violation>>, stale: set<string>, critical: bool, flagged: set<string>)
    requires controls != []
    ensures var state := StateOf(WeightedScore(FrameworkRows(controls, detail, stale)), critical, flagged);
            && (state.Critical? <==> critical)
            && (state.AttentionRequired? <==>
                  !critical && (flagged != {} || 20000 * (|controls| - Count(controls, Passing(stale))) > |controls|))
  {
    WeightedFullIff(controls, detail, stale);
  }

  lemma WeightedFullIff(controls: seq<Control>, detail: Option<seq<Violation>>, stale: set<string>)
    requires controls != []
    ensures WeightedScore(FrameworkRows(controls, detail, stale)) >= 10000
       <==> 20000 * (|controls| - Count(controls, Passing(stale))) <= |controls|
  {
    WeightedScoreIgnoresGrouping(controls, detail, stale);
    FullScoreIff(Count(controls, Passing(stale)), |controls|);
  }

  lemma ReadyMeans(score: nat, critical: bool, flagged: set<string>)
    ensures StateOf(score, critical, flagged).Ready? <==> !critical && flagged == {} && score >= 10000
  {
  }

  lemma {:induction false} AllPass(n: nat, stale: set<string>)
    requires "c" !in stale
    ensures Count(seq(n, _ => Control("c", "f", "pass", 0, 0)), Passing(stale)) == n
  {
    FilterAll(seq(n, _ => Control("c", "f", "pass", 0, 0)), Passing(stale));
  }

  /** Twenty thousand controls, one of them failing: the posture reads "ready". */
  lemma ReadyWithAFailure()
    ensures var controls := [Control("x", "f", "fail", 0, 0)] + seq(19999, _ => Control("c", "f", "pass", 0, 0));
            && Count(controls, Failing()) >= 1
            && StateOf(WeightedScore(FrameworkRows(controls, None, {})), false, {}).Ready?
  {
    var bad, rest := Control("x", "f", "fail", 0, 0), seq(19999, _ => Control("c", "f", "pass", 0, 0));
    var controls := [bad] + rest;
    AllPass(19999, {});
    FilterAppend([bad], rest, Passing({}));
    FilterNone([bad], Passing({}));
    FilterAppend([bad], rest, Failing());
    FilterAll([bad], Failing());
    ReadyIff(controls, None, {}, false, {});
  }
}
