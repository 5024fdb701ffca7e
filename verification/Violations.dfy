/** Open violations: the bounded streaming pass and the cap applied afterwards (assessment.py). */
module Violations {
  import opened Outcomes
  import opened Orders
  import opened Text
  import opened TopSelection

  datatype Event = Event(eventId: string, assetId: string, status: string, controlIds: seq<string>,
                         severity: string, severityScore: int, detail: string)

  /** One (control, event) pair; `detail` carries the members copied from the event unread. */
  datatype Violation = Violation(violationId: string, controlId: string, eventId: string, assetId: string,
                                 severity: string, score: int, detail: string, assetName: Option<string>)

  datatype SeverityCounts = SeverityCounts(critical: nat, high: nat, medium: nat, low: nat)

  datatype Summary = Summary(total: nat, returned: nat, truncated: bool, maxViolations: Option<int>, counts: SeverityCounts)

  predicate IsOpen(event: Event) { event.status in {"open", "failed", "blocked", "noncompliant"} }

  function ViolationOf(event: Event, controlId: string, names: map<string, string>): Violation
  {
    Violation(controlId + ":" + event.eventId, controlId, event.eventId, event.assetId, event.severity,
              event.severityScore, event.detail,
              if event.assetId in names then Some(names[event.assetId]) else None)
  }

  /** The violations of one event's first n controls, and of the first n events. */
  function EventRows(event: Event, n: nat, names: map<string, string>): seq<Violation>
    requires n <= |event.controlIds|
  {
    if n == 0 then [] else EventRows(event, n - 1, names) + [ViolationOf(event, event.controlIds[n - 1], names)]
  }

  function AllRows(events: seq<Event>, names: map<string, string>): seq<Violation>
  {
    if events == [] then []
    else
      var n := |events| - 1;
      AllRows(events[..n], names) + if IsOpen(events[n]) then EventRows(events[n], |events[n].controlIds|, names) else []
  }

  function Counts(rows: seq<Violation>): SeverityCounts
  {
    if rows == [] then SeverityCounts(0, 0, 0, 0)
    else Counted(Counts(rows[..|rows| - 1]), rows[|rows| - 1].severity)
  }

  function Counted(counts: SeverityCounts, severity: string): SeverityCounts
  {
    if severity == "critical" then counts.(critical := counts.critical + 1)
    else if severity == "high" then counts.(high := counts.high + 1)
    else if severity == "medium" then counts.(medium := counts.medium + 1)
    else counts.(low := counts.low + 1)
  }

  /** The row of an open event and a control that it names, by its members. */
  ghost predicate Arises(x: Violation, e: Event, names: map<string, string>)
  {
    && (e.status == "open" || e.status == "failed" || e.status == "blocked" || e.status == "noncompliant")
    && x.controlId in e.controlIds && x.violationId == x.controlId + ":" + e.eventId
    && x.eventId == e.eventId && x.assetId == e.assetId && x.severity == e.severity && x.score == e.severityScore && x.detail == e.detail
    && x.assetName == if e.assetId in names then Some(names[e.assetId]) else None
  }

  /** One row per open event and control it names, with the members of the event. */
  lemma {:induction false} AllRowsMembers(events: seq<Event>, names: map<string, string>)
    ensures forall x :: x in AllRows(events, names) <==> exists e :: e in events && Arises(x, e, names)
  {
    if events != [] {
      var n := |events| - 1;
      AllRowsMembers(events[..n], names);
      RowsOfEvent(events[n], names);
      assert events == events[..n] + [events[n]];
    }
  }

  lemma RowsOfEvent(event: Event, names: map<string, string>)
    ensures forall x :: (IsOpen(event) && x in EventRows(event, |event.controlIds|, names)) <==> Arises(x, event, names)
  {
    EventRowsMembers(event, |event.controlIds|, names);
    assert event.controlIds[..|event.controlIds|] == event.controlIds;
    forall x | Arises(x, event, names) ensures x == ViolationOf(event, x.controlId, names) {}
  }

  lemma {:induction false} EventRowsMembers(event: Event, n: nat, names: map<string, string>)
    requires n <= |event.controlIds|
    ensures |EventRows(event, n, names)| == n
    ensures forall x :: x in EventRows(event, n, names) <==> exists c :: c in event.controlIds[..n] && x == ViolationOf(event, c, names)
  {
    if n > 0 {
      EventRowsMembers(event, n - 1, names);
      assert event.controlIds[..n] == event.controlIds[..n - 1] + [event.controlIds[n - 1]];
    }
  }

  /** The counters are the numbers of rows of each severity; unnamed severities count as low. */
  lemma {:induction false} CountsMeaning(rows: seq<Violation>)
    ensures Counts(rows).critical == |Filter(rows, (x: Violation) => x.severity == "critical")|
    ensures Counts(rows).high == |Filter(rows, (x: Violation) => x.severity == "high")|
    ensures Counts(rows).medium == |Filter(rows, (x: Violation) => x.severity == "medium")|
    ensures Counts(rows).low == |Filter(rows, (x: Violation) => x.severity !in {"critical", "high", "medium"})|
  {
    if rows != [] {
      var n := |rows| - 1;
      CountsMeaning(rows[..n]);
      assert rows == rows[..n + 1];
      FilterNext(rows, n, (x: Violation) => x.severity == "critical");
      FilterNext(rows, n, (x: Violation) => x.severity == "high");
      FilterNext(rows, n, (x: Violation) => x.severity == "medium");
      FilterNext(rows, n, (x: Violation) => x.severity !in {"critical", "high", "medium"});
    }
  }

  /** Every violation is counted under exactly one severity. */
  lemma {:induction false} CountsSumToTotal(rows: seq<Violation>)
    ensures var c := Counts(rows); c.critical + c.high + c.medium + c.low == |rows|
  {
    if rows != [] { CountsSumToTotal(rows[..|rows| - 1]); }
  }

  // ------------------------------------------------------------------ orders

  predicate IdsLe(a: Violation, b: Violation)
  {
    if a.controlId != b.controlId then StrLe(a.controlId, b.controlId) else StrLe(a.eventId, b.eventId)
  }

  /** Display order: `(-severity_score, control_id, event_id)`. */
  predicate DisplayLe(a: Violation, b: Violation) { a.score > b.score || (a.score == b.score && IdsLe(a, b)) }

  /** Retention order: `(severity_score, control_id, event_id)`. */
  predicate RankLe(a: Violation, b: Violation) { a.score < b.score || (a.score == b.score && IdsLe(a, b)) }

  predicate RankGe(a: Violation, b: Violation) { RankLe(b, a) }

  predicate SameKey(a: Violation, b: Violation)
  {
    a.score == b.score && a.controlId == b.controlId && a.eventId == b.eventId
  }

  ghost predicate DistinctKeys(rows: seq<Violation>)
  {
    forall i, j :: 0 <= i < j < |rows| ==> !SameKey(rows[i], rows[j])
  }

  lemma IdsOrder()
    ensures forall a, b :: IdsLe(a, b) || IdsLe(b, a)
    ensures forall a, b, c :: IdsLe(a, b) && IdsLe(b, c) ==> IdsLe(a, c)
    ensures forall a, b :: IdsLe(a, b) && IdsLe(b, a) ==> a.controlId == b.controlId && a.eventId == b.eventId
  {
    StrLeIsOrder();
  }

  lemma RankOrders()
    ensures TotalPreorder(DisplayLe) && TotalPreorder(RankLe) && TotalPreorder(RankGe)
    ensures forall a, b :: RankLe(a, b) && RankLe(b, a) ==> SameKey(a, b)
    ensures forall a, b :: DisplayLe(a, b) && DisplayLe(b, a) ==> SameKey(a, b)
  {
    IdsOrder();
  }

  /** Distinct keys separate the rows in both orders. */
  lemma KeysSeparate(rows: seq<Violation>)
    requires DistinctKeys(rows)
    ensures NoTies(rows, RankLe) && NoTies(rows, DisplayLe) && Distinct(rows)
  {
    RankOrders();
    forall x, y | x in rows && y in rows && SameKey(x, y) ensures x == y {
      var i :| 0 <= i < |rows| && rows[i] == x;
      var j :| 0 <= j < |rows| && rows[j] == y;
      assert SameKey(rows[i], rows[j]) && SameKey(rows[j], rows[i]);
    }
    forall i, j | 0 <= i < j < |rows| ensures rows[i] != rows[j] {
      assert !SameKey(rows[i], rows[j]);
    }
  }

  // -------------------------------------------------------------- both passes

  function Retained(rows: seq<Violation>, maxViolations: Option<int>): seq<Violation>
    requires maxViolations.Some? ==> maxViolations.value > 0
  {
    if maxViolations.None? then rows else TopK(rows, maxViolations.value, RankLe)
  }

  function StreamedRows(rows: seq<Violation>, maxViolations: Option<int>): seq<Violation>
    requires maxViolations.Some? ==> maxViolations.value > 0
  {
    SortBy(Retained(rows, maxViolations), DisplayLe)
  }

  function StreamedSummary(rows: seq<Violation>, maxViolations: Option<int>): Summary
    requires maxViolations.Some? ==> maxViolations.value > 0
  {
    var returned := |Retained(rows, maxViolations)|;
    Summary(|rows|, returned, maxViolations.Some? && |rows| > returned, maxViolations, Counts(rows))
  }

  /** `_build_violations_capped`. With a limit the source needs it positive and the sort keys distinct:
      an empty heap has no first element, and equal keys would make `heapq` compare dicts. */
  method BuildViolations(events: seq<Event>, maxViolations: Option<int>, names: map<string, string>)
    returns (rows: seq<Violation>, summary: Summary)
    requires maxViolations.Some? ==> maxViolations.value > 0 && DistinctKeys(AllRows(events, names))
    ensures rows == StreamedRows(AllRows(events, names), maxViolations)
    ensures summary == StreamedSummary(AllRows(events, names), maxViolations)
  {
    ghost var all := AllRows(events, names);
    var total, counts, retained := 0, SeverityCounts(0, 0, 0, 0), [];
    for i := 0 to |events|
      invariant total == |AllRows(events[..i], names)| && counts == Counts(AllRows(events[..i], names))
      invariant retained == Retained(AllRows(events[..i], names), maxViolations)
    {
      AllRowsPrefix(events, i, names);
      if IsOpen(events[i]) {
        total, counts, retained := AddEvent(events[i], maxViolations, names, AllRows(events[..i], names), total, counts, retained);
      }
    }
    assert events[..|events|] == events;
    rows := SortBy(retained, DisplayLe);
    summary := Summary(total, |retained|, maxViolations.Some? && total > |retained|, maxViolations, counts);
  }

  /** The inner loop over one open event's controls. */
  method AddEvent(event: Event, maxViolations: Option<int>, names: map<string, string>, ghost before: seq<Violation>,
                  total0: nat, counts0: SeverityCounts, retained0: seq<Violation>)
    returns (total: nat, counts: SeverityCounts, retained: seq<Violation>)
    requires maxViolations.Some? ==> maxViolations.value > 0
    requires maxViolations.Some? ==> DistinctKeys(before + EventRows(event, |event.controlIds|, names))
    requires total0 == |before| && counts0 == Counts(before) && retained0 == Retained(before, maxViolations)
    ensures var after := before + EventRows(event, |event.controlIds|, names);
            total == |after| && counts == Counts(after) && retained == Retained(after, maxViolations)
  {
    total, counts, retained := total0, counts0, retained0;
    assert before + EventRows(event, 0, names) == before;
    for c := 0 to |event.controlIds|
      invariant var after := before + EventRows(event, c, names);
                total == |after| && counts == Counts(after) && retained == Retained(after, maxViolations)
    {
      ghost var after := before + EventRows(event, c, names);
      var row := ViolationOf(event, event.controlIds[c], names);
      AddRow(event, maxViolations, names, before, c);
      total, counts := total + 1, Counted(counts, event.severity);
      if maxViolations.None? {
        retained := retained + [row];
      } else {
        retained := Offer(retained, row, maxViolations.value, RankLe);
      }
    }
  }

  lemma AddRow(event: Event, maxViolations: Option<int>, names: map<string, string>, before: seq<Violation>, c: nat)
    requires c < |event.controlIds| && (maxViolations.Some? ==> maxViolations.value > 0)
    requires maxViolations.Some? ==> DistinctKeys(before + EventRows(event, |event.controlIds|, names))
    ensures var after := before + EventRows(event, c, names); var next := before + EventRows(event, c + 1, names);
            var row := ViolationOf(event, event.controlIds[c], names);
            && next == after + [row] && Counts(next) == Counted(Counts(after), event.severity)
            && Retained(next, maxViolations) == if maxViolations.None? then Retained(after, maxViolations) + [row]
                                                else Offer(Retained(after, maxViolations), row, maxViolations.value, RankLe)
  {
    var after := before + EventRows(event, c, names);
    var row := ViolationOf(event, event.controlIds[c], names);
    EventRowsPrefix(event, c + 1, |event.controlIds|, names);
    assert before + EventRows(event, c + 1, names) == after + [row];
    assert (after + [row])[..|after|] == after;
    if maxViolations.Some? {
      assert after + [row] <= before + EventRows(event, |event.controlIds|, names);
      RankOrders();
      KeysSeparate(after + [row]);
      OfferKeepsTopK(after, row, maxViolations.value, RankLe);
    }
  }

  lemma {:induction false} EventRowsPrefix(event: Event, n: nat, m: nat, names: map<string, string>)
    requires n <= m <= |event.controlIds|
    ensures EventRows(event, n, names) <= EventRows(event, m, names)
  {
    if n < m { EventRowsPrefix(event, n, m - 1, names); }
  }

  lemma AllRowsPrefix(events: seq<Event>, i: nat, names: map<string, string>)
    requires i < |events|
    ensures var before := AllRows(events[..i], names);
            && AllRows(events[..i + 1], names)
               == (if IsOpen(events[i]) then before + EventRows(events[i], |events[i].controlIds|, names) else before)
            && (DistinctKeys(AllRows(events, names)) ==> DistinctKeys(AllRows(events[..i + 1], names)))
  {
    assert events[..i + 1][..i] == events[..i];
    assert AllRows(events[..i], names) + [] == AllRows(events[..i], names);
    AllRowsGrow(events, i + 1, names);
  }

  lemma {:induction false} AllRowsGrow(events: seq<Event>, i: nat, names: map<string, string>)
    requires i <= |events|
    ensures AllRows(events[..i], names) <= AllRows(events, names)
    decreases |events|
  {
    if i < |events| {
      var n := |events| - 1;
      AllRowsGrow(events[..n], i, names);
      assert events[..n][..i] == events[..i];
    } else {
      assert events[..i] == events;
    }
  }

  // ------------------------------------------------------- what is returned

  lemma RankIsTotal()
    ensures TotalPreorder(RankLe)
  {
    RankOrders();
  }

  /** With a limit that many rows are returned, or all if there are fewer. */
  lemma ReturnedAreRows(rows: seq<Violation>, k: nat)
    requires k > 0
    ensures |StreamedRows(rows, Some(k))| == if |rows| < k then |rows| else k
    ensures multiset(StreamedRows(rows, Some(k))) <= multiset(rows)
  {
    RankIsTotal();
    TopKMeaning(rows, k, RankLe);
  }

  /** In members: no row that is left out has a higher score than a returned one, and equal scores are decided by control id
      and then event id. */
  lemma ReturnedAreWorst(rows: seq<Violation>, k: nat, x: Violation, y: Violation)
    requires k > 0 && x in rows && x !in StreamedRows(rows, Some(k)) && y in StreamedRows(rows, Some(k))
    ensures || x.score < y.score
            || (x.score == y.score && x.controlId != y.controlId && StrLe(x.controlId, y.controlId))
            || (x.score == y.score && x.controlId == y.controlId && StrLe(x.eventId, y.eventId))
  {
    KeptOutrank(rows, k, x, y);
    RankMeans(x, y);
  }

  lemma KeptOutrank(rows: seq<Violation>, k: nat, x: Violation, y: Violation)
    requires k > 0 && x in rows && x !in StreamedRows(rows, Some(k)) && y in StreamedRows(rows, Some(k))
    ensures RankLe(x, y)
  {
    RankIsTotal();
    TopKMeaning(rows, k, RankLe);
    MultisetMembers(StreamedRows(rows, Some(k)), TopK(rows, k, RankLe));
  }

  lemma RankMeans(x: Violation, y: Violation)
    requires RankLe(x, y)
    ensures || x.score < y.score
            || (x.score == y.score && x.controlId != y.controlId && StrLe(x.controlId, y.controlId))
            || (x.score == y.score && x.controlId == y.controlId && StrLe(x.eventId, y.eventId))
  {
  }

  /** Returned rows stand by falling score, equal scores by rising control id and then event id, with or without a limit. */
  lemma ReturnedInOrder(rows: seq<Violation>, maxViolations: Option<int>, i: nat, j: nat)
    requires maxViolations.Some? ==> maxViolations.value > 0
    requires i < j < |StreamedRows(rows, maxViolations)|
    ensures var x, y := StreamedRows(rows, maxViolations)[i], StreamedRows(rows, maxViolations)[j];
            || x.score > y.score
            || (x.score == y.score && x.controlId != y.controlId && StrLe(x.controlId, y.controlId))
            || (x.score == y.score && x.controlId == y.controlId && StrLe(x.eventId, y.eventId))
  {
    RankOrders();
    SortIsSorted(Retained(rows, maxViolations), DisplayLe);
    assert DisplayLe(StreamedRows(rows, maxViolations)[i], StreamedRows(rows, maxViolations)[j]);
  }

  /** Without a limit every row is returned. */
  lemma AllReturned(rows: seq<Violation>)
    ensures multiset(StreamedRows(rows, None)) == multiset(rows)
  {
  }

  /** The summary counts the whole input, whatever the limit, and says whether the limit left rows out. */
  lemma SummaryMeaning(rows: seq<Violation>, maxViolations: Option<int>)
    requires maxViolations.Some? ==> maxViolations.value > 0
    ensures var s := StreamedSummary(rows, maxViolations);
            && s.total == |rows| && s.returned == |StreamedRows(rows, maxViolations)| && s.maxViolations == maxViolations
            && (s.truncated <==> maxViolations.Some? && |rows| > maxViolations.value)
            && s.counts.critical == |Filter(rows, (x: Violation) => x.severity == "critical")|
            && s.counts.high == |Filter(rows, (x: Violation) => x.severity == "high")|
            && s.counts.medium == |Filter(rows, (x: Violation) => x.severity == "medium")|
            && s.counts.low == |Filter(rows, (x: Violation) => x.severity !in {"critical", "high", "medium"})|
  {
    CountsMeaning(rows);
    if maxViolations.Some? { ReturnedAreRows(rows, maxViolations.value); }
  }

  // --------------------------------------------------------- cap afterwards

  /** `_cap_inline_violations`: the rows at the `nlargest` positions, in their order. */
  function CappedRows(rows: seq<Violation>, cap: nat): seq<Violation>
    requires cap < |rows|
  {
    RowsAt(rows, Largest(rows, cap, RankGe))
  }

  function CappedSummary(rows: seq<Violation>, summary: Summary, cap: nat): Summary
    requires cap < |rows|
  {
    summary.(returned := |CappedRows(rows, cap)|, truncated := true, maxViolations := Some(cap))
  }

  /** Streaming with limit k returns the rows, order and summary of building everything and capping at k. */
  lemma StreamingCapEqualsCapAfterwards(events: seq<Event>, names: map<string, string>, k: nat)
    requires DistinctKeys(AllRows(events, names)) && 0 < k < |AllRows(events, names)|
    ensures var all := AllRows(events, names); var full := StreamedRows(all, None);
            && StreamedRows(all, Some(k)) == CappedRows(full, k)
            && StreamedSummary(all, Some(k)) == CappedSummary(full, StreamedSummary(all, None), k)
  {
    var all := AllRows(events, names);
    RankOrders();
    KeysSeparate(all);
    assert Converse(RankGe, RankLe);
    TopKDisplayedIsCap(all, k, RankLe, RankGe, DisplayLe);
    assert StreamedRows(all, Some(k)) == CappedRows(StreamedRows(all, None), k);
    assert |StreamedRows(all, Some(k))| == |Retained(all, Some(k))|;
  }
}
