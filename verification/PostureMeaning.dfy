/** What the framework rows say, in terms of the controls and violations (assessment.py). */
module PostureMeaning {
  import opened Dicts
  import opened Orders
  import opened Outcomes
  import opened Text
  import opened PostureScore

  ghost predicate Listed(rows: seq<FrameworkRow>, name: string) { exists row :: row in rows && row.framework == name }

  ghost predicate Used(controls: seq<Control>, name: string) { exists c :: c in controls && c.framework == name }

  /** The rows: one per framework, by rising score and then by name. */
  lemma RowsMeaning(controls: seq<Control>, detail: Option<seq<Violation>>, stale: set<string>)
    ensures var rows := FrameworkRows(controls, detail, stale);
            && (forall name :: Listed(rows, name) <==> Used(controls, name))
            && (forall i, j :: 0 <= i < j < |rows| ==>
                  rows[i].framework != rows[j].framework
                  && (rows[i].score < rows[j].score || (rows[i].score == rows[j].score && StrLe(rows[i].framework, rows[j].framework))))
  {
    var rows, unsorted := FrameworkRows(controls, detail, stale), Unsorted(controls, detail, stale);
    ScoreOrder();
    SortIsSorted(unsorted, ScoreLe);
    OneRowEach(controls, detail, stale);
    forall i, j | 0 <= i < j < |rows| ensures rows[i].framework != rows[j].framework && ScoreLe(rows[i], rows[j]) {
      DifferentNames(rows, unsorted, i, j);
    }
    forall name ensures Listed(rows, name) <==> Used(controls, name) {
      ListedIff(controls, detail, stale, name);
    }
  }

  lemma ListedIff(controls: seq<Control>, detail: Option<seq<Violation>>, stale: set<string>, name: string)
    ensures Listed(FrameworkRows(controls, detail, stale), name) <==> Used(controls, name)
  {
    NamesStay(controls, detail, stale);
    ListedInMap(FrameworkRows(controls, detail, stale), Frameworks(controls), GroupRow(controls, detail, stale), name);
    FirstSeenFacts(controls, FrameworkOf);
    assert forall c :: c in controls ==> FrameworkOf(c) == c.framework;
  }

  lemma NamesStay(controls: seq<Control>, detail: Option<seq<Violation>>, stale: set<string>)
    ensures forall name :: GroupRow(controls, detail, stale)(name).framework == name
  {
  }

  lemma ListedInMap(rows: seq<FrameworkRow>, names: seq<string>, f: string -> FrameworkRow, name: string)
    requires multiset(rows) == multiset(Map(names, f)) && forall n :: f(n).framework == n
    ensures Listed(rows, name) <==> name in names
  {
    MultisetMembers(rows, Map(names, f));
    MapMembers(names, f, f(name));
    if row :| row in rows && row.framework == name {
      MapMembers(names, f, row);
    }
  }

  function Unsorted(controls: seq<Control>, detail: Option<seq<Violation>>, stale: set<string>): seq<FrameworkRow>
  {
    Map(Frameworks(controls), GroupRow(controls, detail, stale))
  }

  lemma OneRowEach(controls: seq<Control>, detail: Option<seq<Violation>>, stale: set<string>)
    ensures var unsorted := Unsorted(controls, detail, stale);
            && (forall i, j :: 0 <= i < j < |unsorted| ==> unsorted[i].framework != unsorted[j].framework)
            && (forall row :: row in unsorted ==>
                  row.framework in Frameworks(controls) && row == GroupRow(controls, detail, stale)(row.framework))
  {
    FrameworksCover(controls);
    NamesStay(controls, detail, stale);
    MappedNames(Frameworks(controls), GroupRow(controls, detail, stale));
  }

  lemma MappedNames(names: seq<string>, f: string -> FrameworkRow)
    requires Distinct(names) && forall n :: f(n).framework == n
    ensures forall i, j :: 0 <= i < j < |names| ==> Map(names, f)[i].framework != Map(names, f)[j].framework
    ensures forall row :: row in Map(names, f) ==> row.framework in names && row == f(row.framework)
  {
    forall row | row in Map(names, f) ensures row.framework in names && row == f(row.framework) {
      MapMembers(names, f, row);
    }
  }

  lemma DifferentNames(rows: seq<FrameworkRow>, unsorted: seq<FrameworkRow>, i: nat, j: nat)
    requires multiset(rows) == multiset(unsorted) && i < j < |rows|
    requires forall k, l :: 0 <= k < l < |unsorted| ==> unsorted[k].framework != unsorted[l].framework
    ensures rows[i].framework != rows[j].framework
  {
    MultisetMembers(rows, unsorted);
    assert rows[i] in rows && rows[j] in rows;
    assert forall a, b :: a in unsorted && b in unsorted && a.framework == b.framework ==> a == b;
    if rows[i] == rows[j] {
      CountedTwice(rows, i, j);
      DistinctCounts(unsorted, rows[i]);
    }
  }

  lemma ScoreOrder()
    ensures TotalPreorder(ScoreLe)
  {
    StrLeIsOrder();
  }

  lemma RowOfFramework(controls: seq<Control>, detail: Option<seq<Violation>>, stale: set<string>, row: FrameworkRow)
    requires row in FrameworkRows(controls, detail, stale)
    ensures row == RowFor(row.framework, Filter(controls, InFramework(row.framework)), detail, stale)
    ensures row.framework in Frameworks(controls)
  {
    MultisetMembers(FrameworkRows(controls, detail, stale), Unsorted(controls, detail, stale));
    OneRowEach(controls, detail, stale);
  }

  /** A count of a framework's controls. */
  lemma MemberCount(controls: seq<Control>, name: string, p: Control -> bool, both: Control -> bool)
    requires forall c :: both(c) <==> c.framework == name && p(c)
    ensures Count(Filter(controls, InFramework(name)), p) == |Filter(controls, both)|
  {
    FilterTwice(controls, InFramework(name), p);
    FilterSame(controls, And(InFramework(name), p), both);
  }

  function Members(name: string): Control -> bool { (c: Control) => c.framework == name }

  function FailingOf(name: string): Control -> bool { (c: Control) => c.framework == name && c.status == "fail" }

  function PassingOf(name: string, stale: set<string>): Control -> bool
  {
    (c: Control) => c.framework == name && c.status == "pass" && !(c.controlId in stale)
  }

  function StaleOf(name: string, stale: set<string>): Control -> bool
  {
    (c: Control) => c.framework == name && (c.status == "stale" || c.controlId in stale)
  }

  function OtherwiseOf(name: string): Control -> bool
  {
    (c: Control) => c.framework == name && c.status != "pass" && c.status != "fail" && c.status != "stale"
  }

  lemma RowFields(controls: seq<Control>, detail: Option<seq<Violation>>, stale: set<string>, row: FrameworkRow)
    requires row in FrameworkRows(controls, detail, stale)
    ensures var members := Filter(controls, InFramework(row.framework));
            && row.controls == |members| > 0 && row.failing == Count(members, Failing()) && row.passing == Count(members, Passing(stale))
            && row.stale == Count(members, PostureScore.Stale(stale)) && row.unknown == Count(members, Unknown())
            && row.ready == (row.passing == row.controls)
  {
    RowOfFramework(controls, detail, stale, row);
    NotEmpty(controls, row.framework);
  }

  lemma FailingCount(controls: seq<Control>, name: string)
    ensures Count(Filter(controls, InFramework(name)), Failing()) == |Filter(controls, FailingOf(name))|
  {
    MemberCount(controls, name, Failing(), FailingOf(name));
  }

  lemma PassingCount(controls: seq<Control>, name: string, stale: set<string>)
    ensures Count(Filter(controls, InFramework(name)), Passing(stale)) == |Filter(controls, PassingOf(name, stale))|
  {
    MemberCount(controls, name, Passing(stale), PassingOf(name, stale));
  }

  lemma StaleCount(controls: seq<Control>, name: string, stale: set<string>)
    ensures Count(Filter(controls, InFramework(name)), PostureScore.Stale(stale)) == |Filter(controls, StaleOf(name, stale))|
  {
    MemberCount(controls, name, PostureScore.Stale(stale), StaleOf(name, stale));
  }

  lemma UnknownCount(controls: seq<Control>, name: string)
    ensures Count(Filter(controls, InFramework(name)), Unknown()) == |Filter(controls, OtherwiseOf(name))|
  {
    MemberCount(controls, name, Unknown(), OtherwiseOf(name));
  }

  /** What a row counts: all controls of the framework, the failing, the currently passing, the stale by either mark, and those of
      any other status; it is ready when all of them pass. */
  lemma CountsMeaning(controls: seq<Control>, detail: Option<seq<Violation>>, stale: set<string>, row: FrameworkRow)
    requires row in FrameworkRows(controls, detail, stale)
    ensures row.controls == |Filter(controls, Members(row.framework))| > 0
    ensures row.failing == |Filter(controls, FailingOf(row.framework))|
    ensures row.passing == |Filter(controls, PassingOf(row.framework, stale))|
    ensures row.stale == |Filter(controls, StaleOf(row.framework, stale))|
    ensures row.unknown == |Filter(controls, OtherwiseOf(row.framework))|
    ensures row.ready <==> row.passing == row.controls
  {
    var name := row.framework;
    RowFields(controls, detail, stale, row);
    FilterSame(controls, InFramework(name), Members(name));
    FailingCount(controls, name);
    PassingCount(controls, name, stale);
    StaleCount(controls, name, stale);
    UnknownCount(controls, name);
  }

  lemma NotEmpty(controls: seq<Control>, name: string)
    requires name in Frameworks(controls)
    ensures |Filter(controls, InFramework(name))| > 0
  {
    FirstSeenFacts(controls, FrameworkOf);
    var c :| c in controls && FrameworkOf(c) == name;
    assert c in Filter(controls, InFramework(name));
  }

  /** The score, in hundredths of a percent, is nearest to the exact share of current passes, even on a tie. */
  lemma ScoreMeaning(controls: seq<Control>, detail: Option<seq<Violation>>, stale: set<string>, row: FrameworkRow)
    requires row in FrameworkRows(controls, detail, stale)
    ensures row.controls > 0 && NearestShare(row.score, row.passing, row.controls)
  {
    RowOfFramework(controls, detail, stale, row);
    NotEmpty(controls, row.framework);
    ScoreIsNearest(row.passing, row.controls);
  }

  ghost predicate NearestShare(score: int, passing: int, total: int)
    requires total > 0
  {
    && -total <= 2 * (score * total) - 20000 * passing <= total
    && (2 * (10000 * passing % total) == total ==> score % 2 == 0)
  }

  /** A share of nothing scores nothing. */
  lemma ScoreIsNearest(passing: nat, total: nat)
    ensures if total == 0 then Score(passing, total) == 0 else NearestShare(Score(passing, total), passing, total)
  {
    if total > 0 {
      RoundIsNearest(10000 * passing, total);
      if 2 * (10000 * passing % total) == total { TieIsEven(10000 * passing, total); }
    }
  }

  // -------------------------------------------------------------------- risk

  function CriticalOf(name: string): Control -> bool { (c: Control) => c.framework == name && c.status == "fail" && c.risk >= 100 }

  function HighOf(name: string): Control -> bool { (c: Control) => c.framework == name && c.status == "fail" && 80 <= c.risk <= 99 }

  lemma CriticalCount(controls: seq<Control>, name: string)
    ensures Count(Filter(controls, InFramework(name)), FailsBetween(CRITICAL_SCORE, 101)) == |Filter(controls, CriticalOf(name))|
  {
    MemberCount(controls, name, FailsBetween(CRITICAL_SCORE, 101), CriticalOf(name));
  }

  lemma HighCount(controls: seq<Control>, name: string)
    ensures Count(Filter(controls, InFramework(name)), FailsBetween(HIGH_SCORE, CRITICAL_SCORE)) == |Filter(controls, HighOf(name))|
  {
    MemberCount(controls, name, FailsBetween(HIGH_SCORE, CRITICAL_SCORE), HighOf(name));
  }

  /** Without violation detail: the open events of the framework's controls, and its failing controls by risk score,
      100 and more being critical and 80 to 99 high. */
  lemma AggregateRisk(controls: seq<Control>, stale: set<string>, row: FrameworkRow)
    requires row in FrameworkRows(controls, None, stale)
    ensures row.counts.violations == OpenEvents(Filter(controls, Members(row.framework)))
    ensures row.counts.critical == |Filter(controls, CriticalOf(row.framework))|
    ensures row.counts.high == |Filter(controls, HighOf(row.framework))|
  {
    RowOfFramework(controls, None, stale, row);
    FilterSame(controls, InFramework(row.framework), Members(row.framework));
    CriticalCount(controls, row.framework);
    HighCount(controls, row.framework);
  }

  lemma {:induction false} OpenEventsAdd(a: seq<Control>, b: seq<Control>)
    ensures OpenEvents(a + b) == OpenEvents(a) + OpenEvents(b)
    ensures |b| == 1 ==> OpenEvents(b) == b[0].openEvents
  {
    if b == [] {
      assert a + b == a;
    } else {
      var n := |b| - 1;
      assert (a + b)[..|a| + n] == a + b[..n];
      OpenEventsAdd(a, b[..n]);
    }
  }

  /** With violation detail and one control per id: the violations of the framework's controls, all, the critical and the high ones. */
  lemma DetailedRisk(controls: seq<Control>, violations: seq<Violation>, stale: set<string>, row: FrameworkRow, own: Violation -> bool)
    requires row in FrameworkRows(controls, Some(violations), stale)
    requires OnePerId(controls)
    requires forall v :: own(v) <==> exists c :: c in controls && c.framework == row.framework && c.controlId == v.controlId
    ensures row.counts.violations == |Filter(violations, own)|
    ensures row.counts.critical == |Filter(violations, (v: Violation) => own(v) && v.severity == "critical")|
    ensures row.counts.high == |Filter(violations, (v: Violation) => own(v) && v.severity == "high")|
  {
    var members := Filter(controls, InFramework(row.framework));
    RowOfFramework(controls, Some(violations), stale, row);
    FilterOnePerId(controls, InFramework(row.framework));
    DetailIsFilter(members, violations);
    FilterSame(violations, OfAny(members), own);
    SevereDetail(members, violations, "critical");
    SevereDetail(members, violations, "high");
    FilterSame(violations, SevereOf(members, "critical"), (v: Violation) => own(v) && v.severity == "critical");
    FilterSame(violations, SevereOf(members, "high"), (v: Violation) => own(v) && v.severity == "high");
  }

  function SevereOf(controls: seq<Control>, severity: string): Violation -> bool
  {
    (v: Violation) => v.severity == severity && exists c :: c in controls && c.controlId == v.controlId
  }

  ghost predicate OnePerId(controls: seq<Control>)
  {
    forall i, j :: 0 <= i < j < |controls| ==> controls[i].controlId != controls[j].controlId
  }

  lemma {:induction false} FilterOnePerId(controls: seq<Control>, p: Control -> bool)
    requires OnePerId(controls)
    ensures OnePerId(Filter(controls, p))
  {
    if controls != [] {
      var rest := Filter(controls[1..], p);
      assert OnePerId(controls[1..]);
      FilterOnePerId(controls[1..], p);
      forall i | 0 <= i < |rest| ensures rest[i].controlId != controls[0].controlId {
        assert rest[i] in rest;
        var k :| 0 < k < |controls| && controls[k] == rest[i];
      }
    }
  }

  lemma {:induction false} SevereDetail(controls: seq<Control>, violations: seq<Violation>, severity: string)
    requires OnePerId(controls)
    ensures |Filter(Detail(controls, violations), Severe(severity))| == |Filter(violations, SevereOf(controls, severity))|
  {
    if controls == [] {
      FilterNone(violations, SevereOf(controls, severity));
    } else {
      var n := |controls| - 1;
      var id := controls[n].controlId;
      SevereDetail(controls[..n], violations, severity);
      FilterAppend(Detail(controls[..n], violations), Filter(violations, OfControl(id)), Severe(severity));
      SevereOfOne(violations, id, severity);
      SevereSplit(controls, n, violations, severity);
    }
  }

  lemma SevereSplit(controls: seq<Control>, n: nat, violations: seq<Violation>, severity: string)
    requires |controls| == n + 1 && OnePerId(controls)
    ensures |Filter(violations, SevereOf(controls, severity))|
         == |Filter(violations, SevereOf(controls[..n], severity))| + |Filter(violations, SevereIn(controls[n].controlId, severity))|
  {
    assert controls == controls[..n] + [controls[n]];
    assert forall c :: c in controls <==> c in controls[..n] || c == controls[n];
    FilterDisjoint(violations, SevereOf(controls[..n], severity), SevereIn(controls[n].controlId, severity), SevereOf(controls, severity));
  }

  function SevereIn(id: string, severity: string): Violation -> bool { (v: Violation) => v.controlId == id && v.severity == severity }

  lemma {:induction false} SevereOfOne(violations: seq<Violation>, id: string, severity: string)
    ensures Filter(Filter(violations, OfControl(id)), Severe(severity)) == Filter(violations, SevereIn(id, severity))
  {
    if violations != [] {
      SevereOfOne(violations[1..], id, severity);
      var rest := Filter(violations[1..], OfControl(id));
      assert OfControl(id)(violations[0]) ==> ([violations[0]] + rest)[1..] == rest;
    }
  }
}
