/** Freshness of evidence over time and over populations of observations (evidence_freshness.py). */
module EvidenceFreshness {
  import opened Outcomes

  datatype Status = Fresh | Stale | Expired | Missing

  /** Microseconds in a minute. */
  const MINUTE := 60_000_000

  // -------------------------------------------------------------- status in time

  /** An evidence row as its freshness is judged: collection time, availability, service level in minutes. */
  datatype Evidence = Evidence(collectedAt: Option<int>, available: bool, sloMinutes: int)

  /** `_freshness_record`: the status of a row at moment `now`. */
  function StatusAt(row: Evidence, now: int): Status
  {
    if row.collectedAt.None? || !row.available then Missing
    else if row.collectedAt.value > now then Missing
    else
      var age := (now - row.collectedAt.value) / MINUTE;
      if age <= row.sloMinutes then Fresh else if age <= row.sloMinutes * 2 then Stale else Expired
  }

  lemma AgeThreshold(elapsed: int, minutes: int)
    ensures elapsed / MINUTE <= minutes <==> elapsed < (minutes + 1) * MINUTE
  {
  }

  /** The statuses as intervals: fresh through the last minute of the service level, stale through that of its double, then expired;
      missing before the collection, without one, and when the evidence is unavailable. */
  lemma StatusMeaning(row: Evidence, now: int)
    ensures row.collectedAt.None? || !row.available ==> StatusAt(row, now) == Missing
    ensures row.collectedAt.Some? && row.available ==>
              var elapsed, slo := now - row.collectedAt.value, row.sloMinutes;
              && (StatusAt(row, now) == Missing <==> elapsed < 0)
              && (StatusAt(row, now) == Fresh <==> 0 <= elapsed < 60_000_000 * (slo + 1))
              && (StatusAt(row, now) == Stale <==> elapsed >= 0 && 60_000_000 * (slo + 1) <= elapsed < 60_000_000 * (2 * slo + 1))
              && (StatusAt(row, now) == Expired <==> elapsed >= 0 && elapsed >= 60_000_000 * (slo + 1) && elapsed >= 60_000_000 * (2 * slo + 1))
  {
    if row.collectedAt.Some? {
      AgeThreshold(now - row.collectedAt.value, row.sloMinutes);
      AgeThreshold(now - row.collectedAt.value, 2 * row.sloMinutes);
    }
  }

  /** The moments at which a row may change status. */
  function Changes(row: Evidence): seq<int>
  {
    if row.collectedAt.None? then []
    else
      var c := row.collectedAt.value;
      [c, c + (row.sloMinutes + 1) * MINUTE, c + (2 * row.sloMinutes + 1) * MINUTE]
  }

  datatype Window = Window(since: Option<int>, until: Option<int>)
  {
    /** `_PostureWindow.covers` */
    predicate Covers(moment: int) { (since.None? || since.value <= moment) && (until.None? || moment < until.value) }
  }

  function Narrowed(w: Window, change: int, now: int): Window
  {
    if change <= now then w.(since := if w.since.None? || change > w.since.value then Some(change) else w.since)
    else w.(until := if w.until.None? || change < w.until.value then Some(change) else w.until)
  }

  /** The change point does not lie inside the window around `now`. */
  predicate KeptOut(w: Window, change: int, now: int)
  {
    if change <= now then w.since.Some? && change <= w.since.value else w.until.Some? && w.until.value <= change
  }

  /** `freshness_status_interval` */
  method StatusInterval(rows: seq<Evidence>, now: int) returns (w: Window)
    ensures w.Covers(now)
    ensures forall row, change :: row in rows && change in Changes(row) ==> KeptOut(w, change, now)
    ensures w.since.Some? ==> exists row :: row in rows && w.since.value in Changes(row)
    ensures w.until.Some? ==> exists row :: row in rows && w.until.value in Changes(row)
  {
    w := Window(None, None);
    for i := 0 to |rows|
      invariant w.Covers(now)
      invariant forall j, change :: 0 <= j < i && change in Changes(rows[j]) ==> KeptOut(w, change, now)
      invariant w.since.Some? ==> exists j :: 0 <= j < i && w.since.value in Changes(rows[j])
      invariant w.until.Some? ==> exists j :: 0 <= j < i && w.until.value in Changes(rows[j])
    {
      w := NarrowToRow(w, Changes(rows[i]), now);
    }
  }

  /** The inner loop, over the change points of one row. */
  method NarrowToRow(before: Window, changes: seq<int>, now: int) returns (w: Window)
    requires before.Covers(now)
    ensures w.Covers(now)
    ensures w.since == before.since || (w.since.Some? && w.since.value in changes)
    ensures w.until == before.until || (w.until.Some? && w.until.value in changes)
    ensures forall change :: change in changes || KeptOut(before, change, now) ==> KeptOut(w, change, now)
  {
    w := before;
    for c := 0 to |changes|
      invariant w.Covers(now)
      invariant w.since == before.since || (w.since.Some? && w.since.value in changes)
      invariant w.until == before.until || (w.until.Some? && w.until.value in changes)
      invariant forall change :: KeptOut(before, change, now) ==> KeptOut(w, change, now)
      invariant forall d :: 0 <= d < c ==> KeptOut(w, changes[d], now)
    {
      w := Narrowed(w, changes[c], now);
    }
  }

  /** Between two consecutive change points of a row its status is constant. */
  lemma ConstantBetweenChanges(row: Evidence, a: int, b: int)
    requires a <= b
    requires forall change :: change in Changes(row) ==> change <= a || b < change
    ensures StatusAt(row, a) == StatusAt(row, b)
  {
    if row.collectedAt.Some? {
      var c, slo := row.collectedAt.value, row.sloMinutes;
      var changes := Changes(row);
      assert c == changes[0] && c in changes;
      assert c + (slo + 1) * MINUTE == changes[1] && changes[1] in changes;
      assert c + (2 * slo + 1) * MINUTE == changes[2] && changes[2] in changes;
      AgeThreshold(a - c, slo);
      AgeThreshold(b - c, slo);
      AgeThreshold(a - c, 2 * slo);
      AgeThreshold(b - c, 2 * slo);
    }
  }

  /** A posture computed at `now` may be reused at any moment its window covers: no row has changed status. */
  lemma WindowKeepsStatuses(rows: seq<Evidence>, now: int, w: Window, moment: int, row: Evidence)
    requires w.Covers(now) && w.Covers(moment) && row in rows
    requires forall r, change :: r in rows && change in Changes(r) ==> KeptOut(w, change, now)
    ensures StatusAt(row, moment) == StatusAt(row, now)
  {
    assert forall change :: change in Changes(row) ==> KeptOut(w, change, now);
    if now <= moment {
      ConstantBetweenChanges(row, now, moment);
    } else {
      ConstantBetweenChanges(row, moment, now);
    }
  }

  /** A change point of available evidence that does not lie before its collection. */
  predicate RealChange(row: Evidence, t: int)
  {
    row.available && t in Changes(row) && row.collectedAt.value <= t
  }

  /** A row changes status exactly at its real change points. */
  lemma ChangesStatusIff(row: Evidence, t: int)
    ensures StatusAt(row, t) != StatusAt(row, t - 1) <==> RealChange(row, t)
  {
    if row.collectedAt.Some? {
      var c, slo := row.collectedAt.value, row.sloMinutes;
      AgeThreshold(t - c, slo);
      AgeThreshold(t - 1 - c, slo);
      AgeThreshold(t - c, 2 * slo);
      AgeThreshold(t - 1 - c, 2 * slo);
    }
  }

  /** One more moment before the window, or behind it, leaves every status alone exactly when no available evidence changes
      at that end; unavailable evidence sets an end and is missing on both sides of it. */
  lemma WindowWidensIff(rows: seq<Evidence>, now: int, w: Window)
    requires w.Covers(now)
    requires forall r, change :: r in rows && change in Changes(r) ==> KeptOut(w, change, now)
    ensures w.since.Some? ==>
      ((forall row :: row in rows ==> StatusAt(row, w.since.value - 1) == StatusAt(row, now))
       <==> forall row :: row in rows ==> !RealChange(row, w.since.value))
    ensures w.until.Some? ==>
      ((forall row :: row in rows ==> StatusAt(row, w.until.value) == StatusAt(row, now))
       <==> forall row :: row in rows ==> !RealChange(row, w.until.value))
  {
    forall row | row in rows
      ensures w.since.Some? ==> (StatusAt(row, w.since.value - 1) == StatusAt(row, now) <==> !RealChange(row, w.since.value))
      ensures w.until.Some? ==> (StatusAt(row, w.until.value) == StatusAt(row, now) <==> !RealChange(row, w.until.value))
    {
      EndsOfWindow(rows, now, w, row);
    }
  }

  lemma EndsOfWindow(rows: seq<Evidence>, now: int, w: Window, row: Evidence)
    requires w.Covers(now) && row in rows
    requires forall r, change :: r in rows && change in Changes(r) ==> KeptOut(w, change, now)
    ensures w.since.Some? ==> (StatusAt(row, w.since.value - 1) == StatusAt(row, now) <==> !RealChange(row, w.since.value))
    ensures w.until.Some? ==> (StatusAt(row, w.until.value) == StatusAt(row, now) <==> !RealChange(row, w.until.value))
  {
    if w.since.Some? {
      WindowKeepsStatuses(rows, now, w, w.since.value, row);
      ChangesStatusIff(row, w.since.value);
    }
    if w.until.Some? {
      WindowKeepsStatuses(rows, now, w, w.until.value - 1, row);
      ChangesStatusIff(row, w.until.value);
    }
  }

  /** Unavailable evidence ends the window after eleven minutes, and is missing before and after. */
  lemma UnavailableEndExample()
    ensures var row, w := Evidence(Some(0), false, 10), Window(Some(0), Some(11 * MINUTE));
            && w.Covers(5 * MINUTE) && (forall change :: change in Changes(row) ==> KeptOut(w, change, 5 * MINUTE))
            && 11 * MINUTE in Changes(row) && StatusAt(row, 11 * MINUTE) == StatusAt(row, 5 * MINUTE)
  {
    var row := Evidence(Some(0), false, 10);
    assert Changes(row)[1] == 11 * MINUTE;
  }

  // ----------------------------------------------------- current observations

  /** A freshness record: its population, its evidence types, when it was collected and its status. */
  datatype Record = Record(tenant: string, connector: string, source: string, asset: string,
                           types: seq<string>, moment: Option<int>, status: Status)

  datatype Population = Population(tenant: string, connector: string, source: string, asset: string, kind: string)

  datatype Observation = Observation(population: Population, moment: Option<int>, status: Status)

  function StatusScore(s: Status): nat { match s case Fresh => 100 case Stale => 30 case Expired => 0 case Missing => 0 }

  /** Later collection, an absent time being the earliest. */
  predicate Later(a: Option<int>, b: Option<int>) { a.Some? && (b.None? || a.value > b.value) }

  /** `_record_evidence_types(row) or [""]` */
  function Kinds(r: Record): seq<string> { if r.types == [] then [""] else r.types }

  function ObservationOf(r: Record, kind: string): Observation
  {
    Observation(Population(r.tenant, r.connector, r.source, r.asset, kind), r.moment, r.status)
  }

  /** One update of `latest`. */
  function Observe(latest: map<Population, Observation>, o: Observation): map<Population, Observation>
  {
    if o.population !in latest then latest[o.population := o]
    else
      var prior := latest[o.population];
      if Later(o.moment, prior.moment) || (o.moment == prior.moment && StatusScore(o.status) < StatusScore(prior.status))
      then latest[o.population := o] else latest
  }

  function ObserveKinds(latest: map<Population, Observation>, r: Record, n: nat): map<Population, Observation>
    requires n <= |Kinds(r)|
  {
    if n == 0 then latest else Observe(ObserveKinds(latest, r, n - 1), ObservationOf(r, Kinds(r)[n - 1]))
  }

  /** `_current_observations`: per population the latest observation, the worse one on a tie. */
  function Current(records: seq<Record>): map<Population, Observation>
  {
    if records == [] then map[]
    else
      var n := |records| - 1;
      ObserveKinds(Current(records[..n]), records[n], |Kinds(records[n])|)
  }

  predicate Relevant(kind: string, required: set<string>) { required == {} || (kind != "" && kind in required) }

  /** Some current observation is of this type; "" marks observations without one. */
  ghost predicate Observed(current: map<Population, Observation>, kind: string)
  {
    kind != "" && exists p :: p in current && p.kind == kind
  }

  /** `current_evidence_is_stale` */
  ghost predicate IsStale(records: seq<Record>, required: set<string>)
  {
    var current := Current(records);
    || (exists kind :: kind in required && !Observed(current, kind))
    || (exists p :: p in current && Relevant(p.kind, required) && current[p].status != Fresh)
  }

  method CurrentEvidenceIsStale(records: seq<Record>, required: set<string>) returns (stale: bool)
    ensures stale == IsStale(records, required)
  {
    var latest: map<Population, Observation> := map[];
    for i := 0 to |records|
      invariant latest == Current(records[..i])
    {
      assert records[..i + 1][..i] == records[..i];
      var kinds := Kinds(records[i]);
      for k := 0 to |kinds|
        invariant latest == ObserveKinds(Current(records[..i]), records[i], k)
      {
        latest := Observe(latest, ObservationOf(records[i], kinds[k]));
      }
    }
    assert records[..|records|] == records;
    var relevant := set p | p in latest && Relevant(p.kind, required);
    var observed := set p | p in relevant && p.kind != "" :: p.kind;
    forall kind | kind in required ensures kind in observed <==> Observed(latest, kind) {
      if kind != "" {
        if p :| p in latest && p.kind == kind { assert p in relevant; }
      }
    }
    var missing := required - observed;
    stale := missing != {} || exists p :: p in relevant && latest[p].status != Fresh;
    if missing != {} {
      var kind :| kind in missing;
      assert !Observed(latest, kind);
    } else {
      assert forall kind :: kind in required ==> kind !in missing;
    }
  }

  // -------------------------------------------------- what the verdict means

  ghost predicate SamePopulation(a: Record, b: Record, kind: string)
  {
    kind in Kinds(a) && ObservationOf(a, kind).population == ObservationOf(b, kind).population
  }

  ghost predicate HasKind(records: set<Record>, kind: string)
  {
    kind != "" && exists r :: r in records && kind in Kinds(r)
  }

  /** `r` is one of the latest records of its population for `kind`. */
  ghost predicate LatestFor(records: set<Record>, r: Record, kind: string)
  {
    && r in records && kind in Kinds(r)
    && forall other :: other in records && SamePopulation(other, r, kind) ==> !Later(other.moment, r.moment)
  }

  /** Some required type was never observed, or some latest observation of a relevant type is not fresh. */
  ghost predicate StaleEvidence(records: set<Record>, required: set<string>)
  {
    || (exists kind :: kind in required && !HasKind(records, kind))
    || (exists r, kind :: LatestFor(records, r, kind) && Relevant(kind, required) && r.status != Fresh)
  }

  function RecordSet(records: seq<Record>): set<Record> { set r | r in records }

  function Pool(records: seq<Record>): set<Observation>
  {
    set r, kind | r in records && kind in Kinds(r) :: ObservationOf(r, kind)
  }

  /** `latest` holds per population an observation of the pool that nothing is later or equally late and worse than. */
  ghost predicate Summarizes(latest: map<Population, Observation>, pool: set<Observation>)
  {
    && (forall p :: p in latest ==> latest[p] in pool && latest[p].population == p)
    && (forall o :: o in pool ==>
          && o.population in latest
          && !Later(o.moment, latest[o.population].moment)
          && (o.moment == latest[o.population].moment ==> StatusScore(latest[o.population].status) <= StatusScore(o.status)))
  }

  lemma ObserveSummarizes(latest: map<Population, Observation>, o: Observation, pool: set<Observation>)
    requires Summarizes(latest, pool)
    ensures Summarizes(Observe(latest, o), pool + {o})
  {
  }

  function KindPool(r: Record, n: nat): set<Observation>
    requires n <= |Kinds(r)|
  {
    set i | 0 <= i < n :: ObservationOf(r, Kinds(r)[i])
  }

  lemma {:induction false} KindsSummarize(latest: map<Population, Observation>, r: Record, n: nat, pool: set<Observation>)
    requires n <= |Kinds(r)| && Summarizes(latest, pool)
    ensures Summarizes(ObserveKinds(latest, r, n), pool + KindPool(r, n))
  {
    if n == 0 {
      assert pool + KindPool(r, 0) == pool;
    } else {
      KindsSummarize(latest, r, n - 1, pool);
      ObserveSummarizes(ObserveKinds(latest, r, n - 1), ObservationOf(r, Kinds(r)[n - 1]), pool + KindPool(r, n - 1));
      assert KindPool(r, n) == KindPool(r, n - 1) + {ObservationOf(r, Kinds(r)[n - 1])};
      assert pool + KindPool(r, n) == pool + KindPool(r, n - 1) + {ObservationOf(r, Kinds(r)[n - 1])};
    }
  }

  lemma {:induction false} CurrentSummarizes(records: seq<Record>)
    ensures Summarizes(Current(records), Pool(records))
  {
    if records != [] {
      var n := |records| - 1;
      CurrentSummarizes(records[..n]);
      KindsSummarize(Current(records[..n]), records[n], |Kinds(records[n])|, Pool(records[..n]));
      PoolStep(records);
    }
  }

  lemma PoolStep(records: seq<Record>)
    requires records != []
    ensures var n := |records| - 1;
            Pool(records) == Pool(records[..n]) + KindPool(records[n], |Kinds(records[n])|)
  {
    var n := |records| - 1;
    assert records == records[..n] + [records[n]];
    forall o | o in Pool(records) ensures o in Pool(records[..n]) + KindPool(records[n], |Kinds(records[n])|) {
      var r, kind :| r in records && kind in Kinds(r) && ObservationOf(r, kind) == o;
      if r !in records[..n] {
        var i :| 0 <= i < |Kinds(r)| && Kinds(r)[i] == kind;
      }
    }
  }

  /** The verdict is a property of the set of records: a missing required type or a stale latest observation. */
  lemma StaleMeaning(records: seq<Record>, required: set<string>)
    ensures IsStale(records, required) <==> StaleEvidence(RecordSet(records), required)
  {
    CurrentSummarizes(records);
    forall kind ensures Observed(Current(records), kind) <==> HasKind(RecordSet(records), kind) {
      MissingKind(records, kind);
    }
    StaleObservation(records, required);
  }

  /** The record carries the type; one without types carries the empty one. */
  ghost predicate Carries(r: Record, kind: string) { kind in r.types || (r.types == [] && kind == "") }

  ghost predicate SameSource(a: Record, b: Record)
  {
    a.tenant == b.tenant && a.connector == b.connector && a.source == b.source && a.asset == b.asset
  }

  /** No other record of the same source and type has been collected later. */
  ghost predicate NothingLater(records: set<Record>, r: Record, kind: string)
  {
    forall other :: other in records && SameSource(other, r) && Carries(other, kind) && other.moment.Some? ==>
      r.moment.Some? && other.moment.value <= r.moment.value
  }

  /** Stale evidence on the fields of the records: a required type that no record carries, or a record of a relevant type
      that is not fresh while nothing later supersedes it. */
  lemma StaleOnFields(records: set<Record>, required: set<string>)
    ensures StaleEvidence(records, required) <==>
            || (exists kind :: kind in required && (kind == "" || forall r :: r in records ==> kind !in r.types))
            || (exists r, kind :: && r in records && Carries(r, kind) && NothingLater(records, r, kind) && r.status != Fresh
                                  && (required == {} || (kind in required && kind != "")))
  {
    forall r, kind ensures LatestFor(records, r, kind) <==> r in records && Carries(r, kind) && NothingLater(records, r, kind) {
      LatestMeaning(records, r, kind);
    }
    forall kind ensures HasKind(records, kind) <==> kind != "" && exists r :: r in records && kind in r.types {
      if r :| r in records && kind in r.types { assert kind in Kinds(r); }
    }
  }

  lemma LatestMeaning(records: set<Record>, r: Record, kind: string)
    ensures LatestFor(records, r, kind) <==> r in records && Carries(r, kind) && NothingLater(records, r, kind)
  {
    forall x ensures kind in Kinds(x) <==> Carries(x, kind) {}
    forall other ensures SamePopulation(other, r, kind) <==> Carries(other, kind) && SameSource(other, r) {}
  }

  lemma MissingKind(records: seq<Record>, kind: string)
    requires Summarizes(Current(records), Pool(records))
    ensures Observed(Current(records), kind) <==> HasKind(RecordSet(records), kind)
  {
    if p :| p in Current(records) && p.kind == kind {
      var r, k :| r in records && k in Kinds(r) && ObservationOf(r, k) == Current(records)[p];
      assert r in RecordSet(records) && kind in Kinds(r);
    }
    if r :| r in RecordSet(records) && kind in Kinds(r) {
      assert ObservationOf(r, kind) in Pool(records);
      assert ObservationOf(r, kind).population.kind == kind;
    }
  }

  lemma PoolSource(records: seq<Record>, o: Observation) returns (r: Record)
    requires o in Pool(records)
    ensures r in RecordSet(records) && o.population.kind in Kinds(r) && ObservationOf(r, o.population.kind) == o
  {
    var x, kind :| x in records && kind in Kinds(x) && ObservationOf(x, kind) == o;
    r := x;
  }

  lemma HeldIsLatest(records: seq<Record>, p: Population) returns (r: Record)
    requires Summarizes(Current(records), Pool(records)) && p in Current(records)
    ensures LatestFor(RecordSet(records), r, p.kind) && r.status == Current(records)[p].status
  {
    var kind := p.kind;
    r := PoolSource(records, Current(records)[p]);
    forall other | other in RecordSet(records) && SamePopulation(other, r, kind) ensures !Later(other.moment, r.moment) {
      assert ObservationOf(other, kind) in Pool(records);
    }
  }

  lemma LatestIsHeld(records: seq<Record>, r: Record, kind: string)
    requires Summarizes(Current(records), Pool(records)) && LatestFor(RecordSet(records), r, kind)
    ensures var p := ObservationOf(r, kind).population;
            p in Current(records) && (r.status != Fresh ==> Current(records)[p].status != Fresh)
  {
    var o := ObservationOf(r, kind);
    assert o in Pool(records);
    var held := Current(records)[o.population];
    var other := PoolSource(records, held);
    assert SamePopulation(other, r, kind);
  }

  lemma StaleObservation(records: seq<Record>, required: set<string>)
    requires Summarizes(Current(records), Pool(records))
    ensures (exists p :: p in Current(records) && Relevant(p.kind, required) && Current(records)[p].status != Fresh)
            <==> (exists r, kind :: LatestFor(RecordSet(records), r, kind) && Relevant(kind, required) && r.status != Fresh)
  {
    if p :| p in Current(records) && Relevant(p.kind, required) && Current(records)[p].status != Fresh {
      var r := HeldIsLatest(records, p);
    }
    if r, kind :| LatestFor(RecordSet(records), r, kind) && Relevant(kind, required) && r.status != Fresh {
      LatestIsHeld(records, r, kind);
      assert ObservationOf(r, kind).population.kind == kind;
    }
  }

  /** Reordering the records, or repeating some, never changes the verdict. */
  lemma StaleIgnoresOrder(a: seq<Record>, b: seq<Record>, required: set<string>)
    requires RecordSet(a) == RecordSet(b)
    ensures IsStale(a, required) == IsStale(b, required)
  {
    StaleMeaning(a, required);
    StaleMeaning(b, required);
  }
}
