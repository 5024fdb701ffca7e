/** The shared raw event file: stamped upserts, snapshot replacement, convergence (connector_runner.py). */
module RawEvents {
  import opened Orders
  import opened Outcomes
  import opened EvidenceUpsert
  import opened Offboarding

  /** Validation outside the merge: a per-row check and the identity whose uniqueness is enforced. */
  datatype Checks = Checks(accepts: Row -> bool, identity: Key -> string)

  predicate ValidRows(rows: seq<Row>, checks: Checks)
  {
    && (forall row :: row in rows ==> checks.accepts(row))
    && forall i, j :: 0 <= i < j < |rows| ==> checks.identity(KeyOf(rows[i])) != checks.identity(KeyOf(rows[j]))
  }

  function Stamped(rows: seq<Row>, connectorId: string): (r: seq<Row>)
    ensures |r| == |rows|
    ensures forall row :: row in r ==> row.connectorId == connectorId
  {
    Map(rows, (row: Row) => row.(connectorId := connectorId))
  }

  function Keys(rows: seq<Row>): set<Key> { set row | row in rows :: KeyOf(row) }

  function Retained(connectorId: string, keys: set<Key>): Row -> bool
  {
    (row: Row) => row.connectorId != connectorId || KeyOf(row) in keys
  }

  function OfOthers(connectorId: string): Row -> bool { (row: Row) => row.connectorId != connectorId }

  /** The rows kept beside the newest ones: everything, or in snapshot mode what the connector still reports. */
  function Kept(existing: seq<Row>, newest: seq<Row>, connectorId: string, mode: WriteMode): seq<Row>
  {
    if mode.Snapshot? then Filter(existing, Retained(connectorId, Keys(newest))) else existing
  }

  /** The content written by `_upsert_raw_events`; None when a conflict is raised. */
  function Merged(existing: seq<Row>, incoming: seq<Row>, connectorId: string, mode: WriteMode): Option<seq<Row>>
  {
    match Dedupe(Stamped(incoming, connectorId))
    case None => None
    case Some(newest) => Dedupe(Kept(existing, newest, connectorId, mode) + newest)
  }

  /** The file after an upsert; None when it raises, for a conflict or for a row that validation rejects. */
  function Upserted(existing: seq<Row>, incoming: seq<Row>, connectorId: string, mode: WriteMode, checks: Checks): Option<seq<Row>>
  {
    match Merged(existing, incoming, connectorId, mode)
    case None => None
    case Some(merged) => if ValidRows(merged, checks) then Some(merged) else None
  }

  class RawFile {
    var rows: seq<Row>

    constructor ()
      ensures rows == []
    {
      rows := [];
    }

    /** `_upsert_raw_events`; None stands for a raised error, which leaves the file as it was. */
    method Upsert(incoming: seq<Row>, connectorId: string, mode: WriteMode, checks: Checks, sha256: Content -> string)
      returns (written: Option<seq<Row>>)
      requires Separates(sha256)
      modifies this
      ensures written == Upserted(old(rows), incoming, connectorId, mode, checks)
      ensures rows == if written.Some? then written.value else old(rows)
    {
      var stamped := [];
      for i := 0 to |incoming|
        invariant stamped == Stamped(incoming, connectorId)[..i]
        invariant rows == old(rows)
      {
        stamped := stamped + [incoming[i].(connectorId := connectorId)];
      }
      assert stamped == Stamped(incoming, connectorId);
      var newest := DedupeLatest(stamped, sha256);
      if newest.None? { return None; }
      var kept := if mode.Snapshot? then Filter(rows, Retained(connectorId, Keys(newest.value))) else rows;
      var merged := DedupeLatest(kept + newest.value, sha256);
      if merged.None? || !ValidRows(merged.value, checks) { return None; }
      rows := merged.value;
      written := merged;
    }

    /** `_refresh_offboarding` at the moment `now`: replace the derived rows by what the other rows imply then. */
    method RefreshOffboarding(format: Format, now: Instant, checks: Checks) returns (ok: bool)
      modifies this
      ensures ok == ValidRows(Refreshed(old(rows), format, now), checks)
      ensures rows == if ok then Refreshed(old(rows), format, now) else old(rows)
    {
      var others := Filter(rows, OfOthers(OFFBOARDING_CONNECTOR_ID));
      var derived := Correlate(format, others, now);
      var merged := others + Stamped(derived, OFFBOARDING_CONNECTOR_ID);
      ok := ValidRows(merged, checks);
      if ok { rows := merged; }
    }
  }

  // ------------------------------------------------------------- derived rows

  /** The rows that the offboarding check reads: all but its own. */
  function Inputs(existing: seq<Row>): seq<Row> { Filter(existing, OfOthers(OFFBOARDING_CONNECTOR_ID)) }

  function Derived(existing: seq<Row>, format: Format, now: Instant): seq<Row>
  {
    Stamped(Correlated(format, Inputs(existing), now), OFFBOARDING_CONNECTOR_ID)
  }

  function Refreshed(existing: seq<Row>, format: Format, now: Instant): seq<Row>
  {
    Inputs(existing) + Derived(existing, format, now)
  }

  function OwnedBy(connectorId: string): Row -> bool { (row: Row) => row.connectorId == connectorId }

  /** A refresh keeps every other connector's rows, and its own rows depend on those and the moment only. */
  lemma RefreshParts(existing: seq<Row>, format: Format, now: Instant)
    ensures Inputs(Refreshed(existing, format, now)) == Inputs(existing)
    ensures Filter(Refreshed(existing, format, now), OwnedBy(OFFBOARDING_CONNECTOR_ID)) == Derived(existing, format, now)
  {
    var id := OFFBOARDING_CONNECTOR_ID;
    var others, derived := Inputs(existing), Derived(existing, format, now);
    FilterAppend(others, derived, OfOthers(id));
    FilterAll(others, OfOthers(id));
    FilterNone(derived, OfOthers(id));
    FilterAppend(others, derived, OwnedBy(id));
    FilterNone(others, OwnedBy(id));
    FilterAll(derived, OwnedBy(id));
  }

  /** Refreshing again leaves what a single refresh at the later moment leaves. */
  lemma LastRefreshCounts(existing: seq<Row>, format: Format, now: Instant, later: Instant)
    ensures Refreshed(Refreshed(existing, format, now), format, later) == Refreshed(existing, format, later)
  {
    RefreshParts(existing, format, now);
  }

  /** Repeating a refresh changes nothing exactly when the clock stands still, there is no usable account, or nobody's
      termination has come by the later of the two days. */
  lemma RefreshIsIdempotentIff(existing: seq<Row>, format: Format, now: Instant, again: Instant)
    ensures Refreshed(Refreshed(existing, format, now), format, again) == Refreshed(existing, format, now) <==>
              || now == again
              || (forall row :: row in existing && row.connectorId != OFFBOARDING_CONNECTOR_ID ==> !IsAccount(format, row))
              || forall row :: row in existing && row.connectorId != OFFBOARDING_CONNECTOR_ID
                   ==> !TerminatedBy(format, row, DayOf(Later(now, again)))
  {
    LastRefreshCounts(existing, format, now, again);
    RefreshParts(existing, format, now);
    RefreshParts(existing, format, again);
    DerivedRowsCarryMoment(format, Inputs(existing), now);
    DerivedRowsCarryMoment(format, Inputs(existing), again);
    StampedDiffer(Correlated(format, Inputs(existing), now), Correlated(format, Inputs(existing), again));
    SameDerivedIff(format, Inputs(existing), now, again);
  }

  /** Derived rows carry no connector before they are stamped, so stamping keeps different ones different. */
  lemma StampedDiffer(a: seq<Row>, b: seq<Row>)
    requires forall row :: row in a + b ==> row.connectorId == ""
    ensures Stamped(a, OFFBOARDING_CONNECTOR_ID) == Stamped(b, OFFBOARDING_CONNECTOR_ID) <==> a == b
  {
    var id := OFFBOARDING_CONNECTOR_ID;
    if Stamped(a, id) == Stamped(b, id) {
      forall i | 0 <= i < |a| ensures a[i] == b[i] {
        assert a[i] in a + b && b[i] in a + b;
        assert Stamped(a, id)[i] == a[i].(connectorId := id) && Stamped(b, id)[i] == b[i].(connectorId := id);
      }
    }
  }

  /** Grace left on day 0 and her account is still enabled. */
  function GraceFormat(): Format
  {
    Format((body: string) => if body == "grace" then Employment("102", "grace@example.com", Some(0))
                             else if body == "okta" then UserAccess("grace@example.com", Account("okta", "u2", true))
                             else Unrelated,
           (finding: Finding) => if finding.outcome.ActiveAfterTermination? then "open" else "other",
           (now: Instant) => "", (assetId: string) => assetId, 1)
  }

  /** One terminated employee and one account: a refresh a microsecond later rewrites the file. */
  lemma LaterRefreshRewrites()
    ensures var existing := [Row("hr", "1", 0, "", None, None, "grace"), Row("okta", "2", 0, "", None, None, "okta")];
            Refreshed(Refreshed(existing, GraceFormat(), 5 * DAY), GraceFormat(), 5 * DAY + 1) != Refreshed(existing, GraceFormat(), 5 * DAY)
  {
    var hr, user := Row("hr", "1", 0, "", None, None, "grace"), Row("okta", "2", 0, "", None, None, "okta");
    assert "grace"[0] == 'g' && "okta"[0] == 'o' && |"hr"| != |OFFBOARDING_CONNECTOR_ID| && |"okta"| != |OFFBOARDING_CONNECTOR_ID|;
    assert IsAccount(GraceFormat(), user) && TerminatedBy(GraceFormat(), hr, DayOf(5 * DAY + 1));
    assert hr in [hr, user] && user in [hr, user];
    RefreshIsIdempotentIff([hr, user], GraceFormat(), 5 * DAY, 5 * DAY + 1);
  }

  /** A refreshed file holds the rows of all other connectors as they were, and behind them what the check reports on those,
      under the check's own connector id. */
  lemma RefreshMeaning(existing: seq<Row>, format: Format, now: Instant, foreign: Row -> bool) returns (derived: seq<Row>)
    requires forall row :: foreign(row) <==> row.connectorId != "hris-idp-offboarding"
    ensures Refreshed(existing, format, now) == Filter(existing, foreign) + derived
    ensures var reported := Correlated(format, Filter(existing, foreign), now);
            |derived| == |reported| && forall i :: 0 <= i < |derived| ==> derived[i] == reported[i].(connectorId := "hris-idp-offboarding")
  {
    FilterSame(existing, foreign, OfOthers(OFFBOARDING_CONNECTOR_ID));
    derived := Derived(existing, format, now);
  }

  /** What validation asks of a merged file: every row is accepted, and no two rows share an identity. */
  lemma ValidRowsMeaning(rows: seq<Row>, checks: Checks)
    ensures ValidRows(rows, checks) <==>
            && (forall row :: row in rows ==> checks.accepts(row))
            && (forall i, j :: 0 <= i < |rows| && 0 <= j < |rows| && i != j ==>
                  checks.identity(Key(rows[i].connectorId, rows[i].eventId)) != checks.identity(Key(rows[j].connectorId, rows[j].eventId)))
  {
    if ValidRows(rows, checks) {
      forall i, j | 0 <= i < |rows| && 0 <= j < |rows| && i != j
        ensures checks.identity(KeyOf(rows[i])) != checks.identity(KeyOf(rows[j]))
      {
        var k, l := if i < j then i else j, if i < j then j else i;
        assert checks.identity(KeyOf(rows[k])) != checks.identity(KeyOf(rows[l]));
      }
    }
  }

  /** Stamping sets the owner of every row and nothing else. */
  lemma StampedMeaning(rows: seq<Row>, connectorId: string, i: nat)
    requires i < |rows|
    ensures Stamped(rows, connectorId)[i] == Row(connectorId, rows[i].eventId, rows[i].eventTime, rows[i].timeText,
                                                 rows[i].collectedAt, rows[i].evidenceCollectedAt, rows[i].body)
  {
  }

  // ------------------------------------------------------------ append upserts

  lemma StampingOwnRows(rows: seq<Row>, c: string)
    requires forall row :: row in rows ==> row.connectorId == c
    ensures Stamped(rows, c) == rows
  {
    forall i | 0 <= i < |rows| ensures Stamped(rows, c)[i] == rows[i] {
      assert rows[i] in rows;
    }
  }

  lemma UniqueRepresents(rows: seq<Row>)
    requires UniqueKeys(rows)
    ensures Represents(rows, RowSet(rows))
  {
    forall row | row in RowSet(rows) ensures Covers(rows, row) {
    }
  }

  lemma CoversTransitive(latest: seq<Row>, x: Row, row: Row)
    requires Covers(latest, x) && KeyOf(x) == KeyOf(row) && !Newer(row, x)
    ensures Covers(latest, row)
  {
    var y :| y in latest && KeyOf(y) == KeyOf(x) && !Newer(x, y);
    assert !Newer(row, y);
  }

  /** What covers the rows of a file that covers `row` covers `row` too. */
  lemma CoversThrough(latest: seq<Row>, part: seq<Row>, row: Row)
    requires Covers(part, row) && forall x :: x in part ==> Covers(latest, x)
    ensures Covers(latest, row)
  {
    var x :| x in part && KeyOf(x) == KeyOf(row) && !Newer(row, x);
    CoversTransitive(latest, x, row);
  }

  lemma PoolOfAppend(a: seq<Row>, b: seq<Row>)
    ensures RowSet(a + b) == RowSet(a) + RowSet(b)
  {
    assert forall x :: x in a + b <==> x in a || x in b;
  }

  /** Merging files that represent `p` and `q` represents their union, provided the union is conflict-free. */
  lemma DedupeOfRepresentations(a: seq<Row>, p: set<Row>, b: seq<Row>, q: set<Row>)
    requires Represents(a, p) && Represents(b, q) && ConflictFree(p + q)
    ensures Dedupe(a + b).Some? && Represents(Dedupe(a + b).value, p + q)
  {
    PoolOfAppend(a, b);
    assert RowSet(a + b) <= p + q;
    DedupeSucceeds(a + b);
    DedupeRepresents(a + b);
    var latest := Dedupe(a + b).value;
    assert forall x :: x in a ==> x in RowSet(a + b);
    assert forall x :: x in b ==> x in RowSet(a + b);
    forall row | row in p + q ensures Covers(latest, row) {
      if row in p { CoversThrough(latest, a, row); } else { CoversThrough(latest, b, row); }
    }
  }

  /** Validation refuses none of these rows, alone or together. */
  ghost predicate Acceptable(all: set<Row>, checks: Checks)
  {
    && (forall row :: row in all ==> checks.accepts(row))
    && (forall a, b :: a in all && b in all && checks.identity(KeyOf(a)) == checks.identity(KeyOf(b)) ==> KeyOf(a) == KeyOf(b))
  }

  lemma RepresentativesAreValid(latest: seq<Row>, all: set<Row>, checks: Checks)
    requires Represents(latest, all) && Acceptable(all, checks)
    ensures ValidRows(latest, checks)
  {
    forall i, j | 0 <= i < j < |latest| ensures checks.identity(KeyOf(latest[i])) != checks.identity(KeyOf(latest[j])) {
      assert latest[i] in latest && latest[j] in latest;
    }
  }

  /** An append upsert of conflict-free, acceptable rows succeeds and absorbs exactly its batch. */
  lemma AppendAbsorbsBatch(existing: seq<Row>, all: set<Row>, incoming: seq<Row>, connectorId: string, checks: Checks)
    requires Represents(existing, all)
    requires ConflictFree(all + RowSet(Stamped(incoming, connectorId)))
    requires Acceptable(all + RowSet(Stamped(incoming, connectorId)), checks)
    ensures Upserted(existing, incoming, connectorId, Append, checks).Some?
    ensures Represents(Upserted(existing, incoming, connectorId, Append, checks).value, all + RowSet(Stamped(incoming, connectorId)))
  {
    MergeAbsorbsBatch(existing, all, incoming, connectorId);
    RepresentativesAreValid(Merged(existing, incoming, connectorId, Append).value, all + RowSet(Stamped(incoming, connectorId)), checks);
    ValidMergeLands(existing, incoming, connectorId, checks);
  }

  lemma ValidMergeLands(existing: seq<Row>, incoming: seq<Row>, connectorId: string, checks: Checks)
    requires Merged(existing, incoming, connectorId, Append).Some? && ValidRows(Merged(existing, incoming, connectorId, Append).value, checks)
    ensures Upserted(existing, incoming, connectorId, Append, checks) == Merged(existing, incoming, connectorId, Append)
  {
  }

  lemma MergeAbsorbsBatch(existing: seq<Row>, all: set<Row>, incoming: seq<Row>, connectorId: string)
    requires Represents(existing, all)
    requires ConflictFree(all + RowSet(Stamped(incoming, connectorId)))
    ensures Merged(existing, incoming, connectorId, Append).Some?
    ensures Represents(Merged(existing, incoming, connectorId, Append).value, all + RowSet(Stamped(incoming, connectorId)))
  {
    var batch := Stamped(incoming, connectorId);
    ConflictFreePart(RowSet(batch), all + RowSet(batch));
    DedupeSucceeds(batch);
    DedupeRepresents(batch);
    DedupeOfRepresentations(existing, all, Dedupe(batch).value, RowSet(batch));
    AppendIsDedupe(existing, incoming, connectorId);
  }

  lemma ConflictFreePart(part: set<Row>, all: set<Row>)
    requires ConflictFree(all) && part <= all
    ensures ConflictFree(part)
  {
  }

  lemma AppendIsDedupe(existing: seq<Row>, incoming: seq<Row>, connectorId: string)
    requires Dedupe(Stamped(incoming, connectorId)).Some?
    ensures Merged(existing, incoming, connectorId, Append) == Dedupe(existing + Dedupe(Stamped(incoming, connectorId)).value)
  {
  }

  // ------------------------------------------------------- ownership and deletion

  lemma {:induction false} DedupeUnique(rows: seq<Row>)
    requires UniqueKeys(rows)
    ensures Dedupe(rows) == Some(rows)
  {
    if rows != [] {
      var n := |rows| - 1;
      DedupeUnique(rows[..n]);
      assert rows == rows[..n] + [rows[n]];
    }
  }

  lemma {:induction false} FreshRowsSpareOthers(base: seq<Row>, newest: seq<Row>, connectorId: string)
    requires UniqueKeys(base) && Dedupe(base + newest).Some?
    requires forall row :: row in newest ==> row.connectorId == connectorId
    ensures Filter(Dedupe(base + newest).value, OfOthers(connectorId)) == Filter(base, OfOthers(connectorId))
  {
    if newest == [] {
      assert base + newest == base;
      DedupeUnique(base);
    } else {
      var n := |newest| - 1;
      assert (base + newest)[..|base + newest| - 1] == base + newest[..n];
      assert forall row :: row in newest[..n] ==> row in newest;
      FreshRowsSpareOthers(base, newest[..n], connectorId);
      StepSparesOthers(Dedupe(base + newest[..n]).value, newest[n]);
    }
  }

  lemma StepSparesOthers(latest: seq<Row>, row: Row)
    requires Step(latest, row).Some?
    ensures Filter(Step(latest, row).value, OfOthers(row.connectorId)) == Filter(latest, OfOthers(row.connectorId))
  {
    var p := Position(latest, KeyOf(row));
    if p == |latest| {
      FilterAppend(latest, [row], OfOthers(row.connectorId));
    } else {
      FilterUpdate(latest, p, row, OfOthers(row.connectorId));
    }
  }

  lemma {:induction false} FilterUniqueKeys(rows: seq<Row>, p: Row -> bool)
    requires UniqueKeys(rows)
    ensures UniqueKeys(Filter(rows, p))
  {
    if rows != [] {
      FilterUniqueKeys(rows[1..], p);
      forall x | x in Filter(rows[1..], p) ensures KeyOf(x) != KeyOf(rows[0]) {
        var i :| 0 <= i < |rows[1..]| && rows[1..][i] == x;
        assert rows[i + 1] == x;
      }
    }
  }

  /** An upsert never adds, drops, changes or reorders another connector's rows. */
  lemma UpsertSparesOthers(existing: seq<Row>, incoming: seq<Row>, connectorId: string, mode: WriteMode)
    requires UniqueKeys(existing) && Merged(existing, incoming, connectorId, mode).Some?
    ensures var merged := Merged(existing, incoming, connectorId, mode).value;
            && UniqueKeys(merged)
            && Filter(merged, OfOthers(connectorId)) == Filter(existing, OfOthers(connectorId))
  {
    var batch := Stamped(incoming, connectorId);
    var newest := Dedupe(batch).value;
    DedupeRepresents(batch);
    var kept := Kept(existing, newest, connectorId, mode);
    FilterUniqueKeys(existing, Retained(connectorId, Keys(newest)));
    FreshRowsSpareOthers(kept, newest, connectorId);
    FilterFilter(existing, Retained(connectorId, Keys(newest)), OfOthers(connectorId));
    DedupeRepresents(kept + newest);
  }

  /** Keys the connector owns after an upsert: the reported ones, plus in append mode those it had. */
  lemma OwnedKeysAfterUpsert(existing: seq<Row>, incoming: seq<Row>, connectorId: string, mode: WriteMode, key: Key)
    requires Merged(existing, incoming, connectorId, mode).Some? && key.connectorId == connectorId
    ensures key in Keys(Merged(existing, incoming, connectorId, mode).value) <==>
            key in Keys(Stamped(incoming, connectorId)) || (mode.Append? && key in Keys(existing))
  {
    var batch := Stamped(incoming, connectorId);
    var newest := Dedupe(batch).value;
    var kept := Kept(existing, newest, connectorId, mode);
    DedupeKeys(batch);
    DedupeKeys(kept + newest);
    assert Keys(kept + newest) == Keys(kept) + Keys(newest) by {
      assert forall x :: x in kept + newest <==> x in kept || x in newest;
    }
  }

  lemma DedupeKeys(rows: seq<Row>)
    requires Dedupe(rows).Some?
    ensures Keys(Dedupe(rows).value) == Keys(rows)
  {
    DedupeRepresents(rows);
    var latest := Dedupe(rows).value;
    forall key | key in Keys(rows) ensures key in Keys(latest) {
      var row :| row in rows && KeyOf(row) == key;
      assert row in RowSet(rows) && Covers(latest, row);
    }
    forall key | key in Keys(latest) ensures key in Keys(rows) {
      var row :| row in latest && KeyOf(row) == key;
      assert row in RowSet(rows);
    }
  }

  /** Nothing goes back in time: each reported row, and each earlier row of a key that remains, is covered. */
  lemma UpsertNeverRegresses(existing: seq<Row>, incoming: seq<Row>, connectorId: string, mode: WriteMode, row: Row)
    requires Merged(existing, incoming, connectorId, mode).Some?
    requires row in Stamped(incoming, connectorId)
             || (row in existing && KeyOf(row) in Keys(Merged(existing, incoming, connectorId, mode).value))
    ensures Covers(Merged(existing, incoming, connectorId, mode).value, row)
  {
    var batch := Stamped(incoming, connectorId);
    var newest := Dedupe(batch).value;
    var kept := Kept(existing, newest, connectorId, mode);
    var merged := Dedupe(kept + newest).value;
    DedupeRepresents(batch);
    DedupeRepresents(kept + newest);
    assert forall x :: x in kept + newest <==> x in kept || x in newest;
    if row in batch {
      assert row in RowSet(batch);
      forall x | x in newest ensures Covers(merged, x) {
        assert x in RowSet(kept + newest);
      }
      CoversThrough(merged, newest, row);
    } else {
      OwnedKeysAfterUpsert(existing, incoming, connectorId, mode, Key(connectorId, row.eventId));
      DedupeKeys(batch);
      assert row in kept;
      assert row in RowSet(kept + newest);
    }
  }
}
