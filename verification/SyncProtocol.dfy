/** Append-connector syncs under redelivery, overlap and crashes: land the rows, then move the cursor (connector_runner.py). */
module SyncProtocol {
  import opened Orders
  import opened Outcomes
  import opened EvidenceUpsert
  import opened Offboarding
  import opened RawEvents

  /** One line of `gold/watermarks.jsonl`. */
  datatype Mark = Mark(connectorId: string, cursor: Instant)

  /** The latest mark of a connector wins on read. */
  function Cursor(marks: seq<Mark>, connectorId: string): Option<Instant>
  {
    if marks == [] then None
    else
      var n := |marks| - 1;
      if marks[n].connectorId == connectorId then Some(marks[n].cursor) else Cursor(marks[..n], connectorId)
  }

  predicate Beyond(cursor: Option<Instant>, t: Instant) { cursor.None? || t > cursor.value }

  function LatestTime(rows: seq<Row>): (t: Instant)
    requires rows != []
    ensures exists row :: row in rows && row.eventTime == t
    ensures forall row :: row in rows ==> row.eventTime <= t
  {
    if |rows| == 1 then
      assert rows[0] in rows;
      rows[0].eventTime
    else
      var n := |rows| - 1;
      assert rows == rows[..n] + [rows[n]];
      var t := LatestTime(rows[..n]);
      if rows[n].eventTime > t then
        assert rows[n] in rows;
        rows[n].eventTime
      else
        assert forall row :: row in rows[..n] ==> row in rows;
        t
  }

  /** The marks after `_advance_watermark`. */
  function Advanced(marks: seq<Mark>, connectorId: string, rows: seq<Row>, mode: WriteMode): seq<Mark>
  {
    if mode.Snapshot? || rows == [] || !Beyond(Cursor(marks, connectorId), LatestTime(rows)) then marks
    else marks + [Mark(connectorId, LatestTime(rows))]
  }

  ghost predicate MarksIncrease(marks: seq<Mark>)
  {
    forall i, j :: 0 <= i < j < |marks| && marks[i].connectorId == marks[j].connectorId ==> marks[i].cursor < marks[j].cursor
  }

  lemma {:induction false} CursorIsLastMark(marks: seq<Mark>, connectorId: string)
    ensures match Cursor(marks, connectorId)
            case None => forall i :: 0 <= i < |marks| ==> marks[i].connectorId != connectorId
            case Some(t) => exists i :: && 0 <= i < |marks| && marks[i] == Mark(connectorId, t)
                                        && forall j :: i < j < |marks| ==> marks[j].connectorId != connectorId
  {
    if marks != [] {
      CursorIsLastMark(marks[..|marks| - 1], connectorId);
    }
  }

  /** The log only grows, each connector's marks strictly increase, and the cursor becomes
      the maximum of the old cursor and the batch; nobody else's cursor moves. */
  lemma AdvanceIsMonotone(marks: seq<Mark>, connectorId: string, rows: seq<Row>, mode: WriteMode, other: string)
    requires MarksIncrease(marks)
    ensures var after := Advanced(marks, connectorId, rows, mode);
            && MarksIncrease(after) && marks <= after
            && (other != connectorId ==> Cursor(after, other) == Cursor(marks, other))
            && (mode.Append? ==> forall row :: row in rows ==> !Beyond(Cursor(after, connectorId), row.eventTime))
            && (Cursor(marks, connectorId).Some? ==> !Beyond(Cursor(after, connectorId), Cursor(marks, connectorId).value))
  {
    var after := Advanced(marks, connectorId, rows, mode);
    if after != marks {
      assert after[..|after| - 1] == marks;
      CursorIsLastMark(marks, connectorId);
      forall i | 0 <= i < |marks| && marks[i].connectorId == connectorId
        ensures marks[i].cursor < after[|marks|].cursor
      {
        var last :| 0 <= last < |marks| && marks[last] == Mark(connectorId, Cursor(marks, connectorId).value)
                    && forall j :: last < j < |marks| ==> marks[j].connectorId != connectorId;
        assert i <= last;
      }
    }
  }

  class SyncLake {
    const file: RawFile
    var marks: seq<Mark>

    constructor ()
      ensures file.rows == [] && marks == [] && fresh(file)
    {
      file := new RawFile();
      marks := [];
    }

    method ReadWatermark(connectorId: string) returns (latest: Option<Instant>)
      ensures latest == Cursor(marks, connectorId)
    {
      latest := None;
      for i := 0 to |marks|
        invariant latest == Cursor(marks[..i], connectorId)
      {
        assert marks[..i + 1][..i] == marks[..i];
        if marks[i].connectorId == connectorId {
          latest := Some(marks[i].cursor);
        }
      }
      assert marks[..|marks|] == marks;
    }

    method AdvanceWatermark(connectorId: string, rows: seq<Row>, mode: WriteMode) returns (cursor: Option<Instant>)
      modifies this`marks
      ensures marks == Advanced(old(marks), connectorId, rows, mode)
      ensures cursor == if mode.Snapshot? then None else Cursor(marks, connectorId)
    {
      if mode.Snapshot? { return None; }
      var prior := ReadWatermark(connectorId);
      if rows == [] { return prior; }
      var newest := LatestTime(rows);
      if prior.Some? && newest <= prior.value { return prior; }
      marks := marks + [Mark(connectorId, newest)];
      assert marks[..|marks| - 1] == old(marks);
      cursor := Some(newest);
    }

    /** The persistence steps of `run_connector_sync`, in order; false stands for a raised error.
        The cursor moves only after the rows (and any derived rows) are in the file. */
    method RunSync(collected: seq<Row>, connectorId: string, mode: WriteMode, checks: Checks, sha256: Content -> string,
                   format: Format, now: Instant)
      returns (ok: bool)
      requires Separates(sha256)
      modifies this`marks, file
      ensures ok ==> Upserted(old(file.rows), collected, connectorId, mode, checks).Some?
      ensures ok && !(exists row :: row in collected && IsInput(format, row)) ==>
                file.rows == Upserted(old(file.rows), collected, connectorId, mode, checks).value
      ensures ok && (exists row :: row in collected && IsInput(format, row)) ==>
                file.rows == Refreshed(Upserted(old(file.rows), collected, connectorId, mode, checks).value, format, now)
      ensures ok ==> marks == Advanced(old(marks), connectorId, collected, mode)
      ensures !ok ==> marks == old(marks)
      ensures !ok && file.rows != old(file.rows) ==>
                && (exists row :: row in collected && IsInput(format, row))
                && Some(file.rows) == Upserted(old(file.rows), collected, connectorId, mode, checks)
    {
      var written := file.Upsert(collected, connectorId, mode, checks, sha256);
      if written.None? { return false; }
      if exists row :: row in collected && IsInput(format, row) {
        ok := file.RefreshOffboarding(format, now, checks);
        if !ok { return; }
      }
      var _ := AdvanceWatermark(connectorId, collected, mode);
      ok := true;
    }
  }

  // ---------------------------------------------------------- all interleavings

  /** A sync in flight. `prior` is the cursor read before the decision to write a mark, and `at` the length of the log then. */
  datatype Phase =
    | Begun(since: Option<Instant>)
    | Pulled(batch: seq<Row>)
    | Landed(batch: seq<Row>)
    | Decided(batch: seq<Row>, prior: Option<Instant>, at: nat)

  /** The source of one append connector, the shared file and log of marks, and the connector's syncs in flight: nothing
      keeps two of them from overlapping. */
  datatype State = State(source: seq<Row>, file: seq<Row>, marks: seq<Mark>, syncs: map<nat, Phase>)

  /** The connector, how derived rows are read and written, and what validation demands. */
  datatype Setting = Setting(connectorId: string, format: Format, checks: Checks)

  datatype Event =
    | Emit(row: Row)
    | Begin(n: nat)
    | Pull(n: nat, rows: seq<Row>)
    | Land(n: nat)
    | Refresh(now: Instant)
    | ReadMark(n: nat)
    | WriteMark(n: nat)
    | Crash(n: nat)
    | OtherConnector(others: seq<Row>, owner: string, mode: WriteMode)
    | OtherMark(mark: Mark)

  const START := State([], [], [], map[])

  function InFlight(p: Phase): seq<Row> { if p.Begun? then [] else p.batch }

  /** The source emits in event-time order: after every mark written so far and after everything in flight. */
  ghost predicate InOrder(k: Setting, s: State, row: Row)
  {
    && (forall m :: m in s.marks && m.connectorId == k.connectorId ==> m.cursor < row.eventTime)
    && forall n, x :: n in s.syncs && x in InFlight(s.syncs[n]) ==> x.eventTime < row.eventTime
  }

  /** A pull returns source rows, and at least all of those after the cursor it was given. */
  ghost predicate CompletePull(source: seq<Row>, since: Option<Instant>, rows: seq<Row>)
  {
    && (forall row :: row in rows ==> row in source)
    && (forall row :: row in source && Beyond(since, row.eventTime) ==> row in rows)
  }

  /** The sync is about to write a mark. */
  predicate Writes(p: Phase) { p.Decided? && p.batch != [] && Beyond(p.prior, LatestTime(p.batch)) }

  function Written(k: Setting, marks: seq<Mark>, p: Phase): seq<Mark>
  {
    if Writes(p) then marks + [Mark(k.connectorId, LatestTime(p.batch))] else marks
  }

  /** One step. `ReadMark` and `WriteMark` are the two halves of `_advance_watermark`, which holds no lock. `Refresh` rebuilds the
      derived rows after this or another connector's landing; one that validation refuses is a `Crash`. */
  ghost predicate Next(k: Setting, s: State, e: Event, s': State)
  {
    match e
    case Emit(row) => row.connectorId == k.connectorId && InOrder(k, s, row) && s' == s.(source := s.source + [row])
    case Begin(n) => n !in s.syncs && s' == s.(syncs := s.syncs[n := Begun(Cursor(s.marks, k.connectorId))])
    case Pull(n, rows) =>
      && n in s.syncs && s.syncs[n].Begun? && CompletePull(s.source, s.syncs[n].since, rows)
      && s' == s.(syncs := s.syncs[n := Pulled(rows)])
    case Land(n) =>
      && n in s.syncs && s.syncs[n].Pulled?
      && s' == (match Upserted(s.file, s.syncs[n].batch, k.connectorId, Append, k.checks)
                case Some(after) => s.(file := after, syncs := s.syncs[n := Landed(s.syncs[n].batch)])
                case None => s.(syncs := s.syncs - {n}))
    case Refresh(now) =>
      && ValidRows(Refreshed(s.file, k.format, now), k.checks)
      && s' == s.(file := Refreshed(s.file, k.format, now))
    case ReadMark(n) =>
      && n in s.syncs && s.syncs[n].Landed?
      && s' == s.(syncs := s.syncs[n := Decided(s.syncs[n].batch, Cursor(s.marks, k.connectorId), |s.marks|)])
    case WriteMark(n) =>
      && n in s.syncs && s.syncs[n].Decided?
      && s' == s.(marks := Written(k, s.marks, s.syncs[n]), syncs := s.syncs - {n})
    case Crash(n) => n in s.syncs && s' == s.(syncs := s.syncs - {n})
    case OtherConnector(rows, owner, mode) =>
      && owner != k.connectorId && Upserted(s.file, rows, owner, mode, k.checks).Some?
      && s' == s.(file := Upserted(s.file, rows, owner, mode, k.checks).value)
    case OtherMark(mark) => mark.connectorId != k.connectorId && s' == s.(marks := s.marks + [mark])
  }

  // ------------------------------------------------------------------ invariant

  /** The file holds one valid row per key, and of this connector only rows of its source. */
  ghost predicate FileInv(k: Setting, s: State)
  {
    && UniqueKeys(s.file) && ValidRows(s.file, k.checks)
    && forall row :: row in s.file && row.connectorId == k.connectorId ==> row in s.source
  }

  ghost predicate CoveredUpTo(s: State, t: Instant)
  {
    forall row :: row in s.source && row.eventTime <= t ==> Covers(s.file, row)
  }

  /** Nothing at or before a mark, the current one or an earlier one, is missing or stale in the file. */
  ghost predicate MarksCovered(k: Setting, s: State)
  {
    forall m :: m in s.marks && m.connectorId == k.connectorId ==> CoveredUpTo(s, m.cursor)
  }

  ghost predicate AllCovered(file: seq<Row>, rows: seq<Row>) { forall row :: row in rows ==> Covers(file, row) }

  /** Every source row up to a row of the batch is in the batch or in the file. */
  ghost predicate NoneSkipped(s: State, batch: seq<Row>)
  {
    && (forall row :: row in batch ==> row in s.source)
    && forall row, x :: row in s.source && x in batch && row.eventTime <= x.eventTime ==> row in batch || Covers(s.file, row)
  }

  ghost predicate PhaseInv(k: Setting, s: State, p: Phase)
  {
    match p
    case Begun(since) => since.Some? ==> Mark(k.connectorId, since.value) in s.marks
    case Pulled(batch) => NoneSkipped(s, batch)
    case Landed(batch) => NoneSkipped(s, batch) && AllCovered(s.file, batch)
    case Decided(batch, prior, at) =>
      NoneSkipped(s, batch) && AllCovered(s.file, batch) && at <= |s.marks| && prior == Cursor(s.marks[..at], k.connectorId)
  }

  ghost predicate SyncsInv(k: Setting, s: State) { forall n :: n in s.syncs ==> PhaseInv(k, s, s.syncs[n]) }

  ghost predicate Inv(k: Setting, s: State)
  {
    && FileInv(k, s) && MarksCovered(k, s) && SyncsInv(k, s)
    && forall row :: row in s.source ==> row.connectorId == k.connectorId
  }

  /** An upsert by any connector keeps what the file covers of a connector it does not shrink. */
  lemma UpsertKeepsCoverage(file: seq<Row>, incoming: seq<Row>, owner: string, mode: WriteMode, row: Row)
    requires UniqueKeys(file) && Covers(file, row) && Merged(file, incoming, owner, mode).Some?
    requires mode.Append? || row.connectorId != owner
    ensures Covers(Merged(file, incoming, owner, mode).value, row)
  {
    var merged := Merged(file, incoming, owner, mode).value;
    var x :| x in file && KeyOf(x) == KeyOf(row) && !Newer(row, x);
    if x.connectorId != owner {
      UpsertSparesOthers(file, incoming, owner, mode);
      assert x in Filter(file, OfOthers(owner));
      assert x in merged;
    } else {
      OwnedKeysAfterUpsert(file, incoming, owner, mode, KeyOf(x));
      UpsertNeverRegresses(file, incoming, owner, mode, x);
      CoversTransitive(merged, x, row);
    }
  }

  /** Merged rows were in the file or in the batch. */
  lemma MergedRows(file: seq<Row>, incoming: seq<Row>, owner: string, mode: WriteMode, row: Row)
    requires Merged(file, incoming, owner, mode).Some? && row in Merged(file, incoming, owner, mode).value
    ensures row in file || row in Stamped(incoming, owner)
  {
    var batch := Stamped(incoming, owner);
    var newest := Dedupe(batch).value;
    DedupeRepresents(batch);
    var kept := Kept(file, newest, owner, mode);
    DedupeRepresents(kept + newest);
    assert row in RowSet(kept + newest);
    if row in newest { assert row in RowSet(batch); }
  }

  /** The file covers what it covered of the source, and the log keeps its marks. */
  ghost predicate Grows(s: State, s': State)
  {
    && s'.source == s.source && s.marks <= s'.marks
    && forall row :: row in s.source && Covers(s.file, row) ==> Covers(s'.file, row)
  }

  lemma PhaseSurvives(k: Setting, s: State, s': State, p: Phase)
    requires PhaseInv(k, s, p) && Grows(s, s')
    ensures PhaseInv(k, s', p)
  {
    if p.Decided? { assert s'.marks[..p.at] == s.marks[..p.at]; }
  }

  /** Only the sync that moves has to be looked at again. */
  lemma GrowingKeepsInv(k: Setting, s: State, s': State, n: nat)
    requires Inv(k, s) && Grows(s, s') && FileInv(k, s')
    requires forall m :: m in s'.marks && m !in s.marks && m.connectorId == k.connectorId ==> CoveredUpTo(s', m.cursor)
    requires forall i :: i in s'.syncs && i != n ==> i in s.syncs && s'.syncs[i] == s.syncs[i]
    requires n in s'.syncs ==> PhaseInv(k, s', s'.syncs[n])
    ensures Inv(k, s')
  {
    forall i | i in s'.syncs ensures PhaseInv(k, s', s'.syncs[i]) {
      if i != n { PhaseSurvives(k, s, s', s.syncs[i]); }
    }
    forall m | m in s'.marks && m.connectorId == k.connectorId ensures CoveredUpTo(s', m.cursor) {
      if m in s.marks { assert CoveredUpTo(s, m.cursor); }
    }
  }

  lemma EmitKeepsInv(k: Setting, s: State, row: Row)
    requires Inv(k, s) && row.connectorId == k.connectorId && InOrder(k, s, row)
    ensures Inv(k, s.(source := s.source + [row]))
  {
    var s' := s.(source := s.source + [row]);
    forall n | n in s'.syncs ensures PhaseInv(k, s', s'.syncs[n]) {
      var p := s.syncs[n];
      assert PhaseInv(k, s, p);
      if !p.Begun? {
        forall r, x | r in s'.source && x in p.batch && r.eventTime <= x.eventTime ensures r in p.batch || Covers(s'.file, r) {
          assert x in InFlight(p);
          assert r in s.source;
        }
      }
    }
    forall m | m in s'.marks && m.connectorId == k.connectorId ensures CoveredUpTo(s', m.cursor) {
      assert CoveredUpTo(s, m.cursor);
    }
  }

  lemma PullKeepsInv(k: Setting, s: State, n: nat, rows: seq<Row>)
    requires Inv(k, s) && n in s.syncs && s.syncs[n].Begun? && CompletePull(s.source, s.syncs[n].since, rows)
    ensures Inv(k, s.(syncs := s.syncs[n := Pulled(rows)]))
  {
    var s', since := s.(syncs := s.syncs[n := Pulled(rows)]), s.syncs[n].since;
    assert PhaseInv(k, s, s.syncs[n]);
    forall row | row in s.source && row !in rows ensures Covers(s.file, row) {
      assert !Beyond(since, row.eventTime);
      assert CoveredUpTo(s, since.value);
    }
    GrowingKeepsInv(k, s, s', n);
  }

  lemma LandKeepsFile(k: Setting, s: State, batch: seq<Row>)
    requires Inv(k, s) && NoneSkipped(s, batch) && Upserted(s.file, batch, k.connectorId, Append, k.checks).Some?
    ensures var after := s.(file := Upserted(s.file, batch, k.connectorId, Append, k.checks).value);
            FileInv(k, after) && Grows(s, after) && AllCovered(after.file, batch)
  {
    var merged := Merged(s.file, batch, k.connectorId, Append).value;
    UpsertSparesOthers(s.file, batch, k.connectorId, Append);
    StampingOwnRows(batch, k.connectorId);
    forall row | row in merged && row.connectorId == k.connectorId ensures row in s.source {
      MergedRows(s.file, batch, k.connectorId, Append, row);
    }
    forall row | row in s.source && Covers(s.file, row) ensures Covers(merged, row) {
      UpsertKeepsCoverage(s.file, batch, k.connectorId, Append, row);
    }
    forall row | row in batch ensures Covers(merged, row) {
      UpsertNeverRegresses(s.file, batch, k.connectorId, Append, row);
    }
  }

  lemma LandKeepsInv(k: Setting, s: State, n: nat)
    requires Inv(k, s) && n in s.syncs && s.syncs[n].Pulled?
    requires Upserted(s.file, s.syncs[n].batch, k.connectorId, Append, k.checks).Some?
    ensures Inv(k, s.(file := Upserted(s.file, s.syncs[n].batch, k.connectorId, Append, k.checks).value,
                      syncs := s.syncs[n := Landed(s.syncs[n].batch)]))
  {
    var batch := s.syncs[n].batch;
    var file := Upserted(s.file, batch, k.connectorId, Append, k.checks).value;
    assert PhaseInv(k, s, s.syncs[n]);
    LandKeepsFile(k, s, batch);
    var s' := s.(file := file, syncs := s.syncs[n := Landed(batch)]);
    PhaseSurvives(k, s, s', Pulled(batch));
    GrowingKeepsInv(k, s, s', n);
  }

  /** A file that leaves this connector's rows as they are. */
  lemma SparingKeepsInv(k: Setting, s: State, after: seq<Row>)
    requires Inv(k, s) && UniqueKeys(after) && ValidRows(after, k.checks)
    requires forall row: Row :: row.connectorId == k.connectorId ==> (row in after <==> row in s.file)
    ensures Inv(k, s.(file := after))
  {
    var s' := s.(file := after);
    forall row | row in s.source && Covers(s.file, row) ensures Covers(after, row) {
      var x :| x in s.file && KeyOf(x) == KeyOf(row) && !Newer(row, x);
      assert x.connectorId == k.connectorId;
    }
    forall i | i in s'.syncs ensures PhaseInv(k, s', s'.syncs[i]) { PhaseSurvives(k, s, s', s.syncs[i]); }
    forall m | m in s'.marks && m.connectorId == k.connectorId ensures CoveredUpTo(s', m.cursor) {
      assert CoveredUpTo(s, m.cursor);
    }
  }

  lemma OtherConnectorKeepsInv(k: Setting, s: State, rows: seq<Row>, owner: string, mode: WriteMode)
    requires Inv(k, s) && owner != k.connectorId && Upserted(s.file, rows, owner, mode, k.checks).Some?
    ensures Inv(k, s.(file := Upserted(s.file, rows, owner, mode, k.checks).value))
  {
    var after := Upserted(s.file, rows, owner, mode, k.checks).value;
    UpsertSparesOthers(s.file, rows, owner, mode);
    forall row: Row | row.connectorId == k.connectorId ensures row in after <==> row in s.file {
      assert row in Filter(after, OfOthers(owner)) <==> row in Filter(s.file, OfOthers(owner));
    }
    SparingKeepsInv(k, s, after);
  }

  lemma RefreshKeepsInv(k: Setting, s: State, now: Instant)
    requires Inv(k, s) && k.connectorId != OFFBOARDING_CONNECTOR_ID && ValidRows(Refreshed(s.file, k.format, now), k.checks)
    ensures Inv(k, s.(file := Refreshed(s.file, k.format, now)))
  {
    var after := Refreshed(s.file, k.format, now);
    RefreshParts(s.file, k.format, now);
    forall row: Row | row.connectorId == k.connectorId ensures row in after <==> row in s.file {
      assert row in Inputs(after) <==> row in Inputs(s.file);
    }
    forall i, j | 0 <= i < j < |after| ensures KeyOf(after[i]) != KeyOf(after[j]) {
      assert k.checks.identity(KeyOf(after[i])) != k.checks.identity(KeyOf(after[j]));
    }
    SparingKeepsInv(k, s, after);
  }

  lemma WriteKeepsInv(k: Setting, s: State, n: nat)
    requires Inv(k, s) && n in s.syncs && s.syncs[n].Decided?
    ensures Inv(k, s.(marks := Written(k, s.marks, s.syncs[n]), syncs := s.syncs - {n}))
  {
    var p := s.syncs[n];
    var s' := s.(marks := Written(k, s.marks, p), syncs := s.syncs - {n});
    assert PhaseInv(k, s, p);
    if Writes(p) {
      forall row | row in s'.source && row.eventTime <= LatestTime(p.batch) ensures Covers(s'.file, row) {
        var x :| x in p.batch && x.eventTime == LatestTime(p.batch);
        assert row in p.batch || Covers(s.file, row);
      }
    }
    GrowingKeepsInv(k, s, s', n);
  }

  lemma OtherMarkKeepsInv(k: Setting, s: State, mark: Mark)
    requires Inv(k, s) && mark.connectorId != k.connectorId
    ensures Inv(k, s.(marks := s.marks + [mark]))
  {
    var s' := s.(marks := s.marks + [mark]);
    forall i | i in s'.syncs ensures PhaseInv(k, s', s'.syncs[i]) { PhaseSurvives(k, s, s', s.syncs[i]); }
    forall m | m in s'.marks && m.connectorId == k.connectorId ensures CoveredUpTo(s', m.cursor) {
      assert CoveredUpTo(s, m.cursor);
    }
  }

  lemma BeginKeepsInv(k: Setting, s: State, n: nat)
    requires Inv(k, s) && n !in s.syncs
    ensures Inv(k, s.(syncs := s.syncs[n := Begun(Cursor(s.marks, k.connectorId))]))
  {
    CursorIsLastMark(s.marks, k.connectorId);
    GrowingKeepsInv(k, s, s.(syncs := s.syncs[n := Begun(Cursor(s.marks, k.connectorId))]), n);
  }

  lemma ReadMarkKeepsInv(k: Setting, s: State, n: nat)
    requires Inv(k, s) && n in s.syncs && s.syncs[n].Landed?
    ensures Inv(k, s.(syncs := s.syncs[n := Decided(s.syncs[n].batch, Cursor(s.marks, k.connectorId), |s.marks|)]))
  {
    assert PhaseInv(k, s, s.syncs[n]);
    assert s.marks[..|s.marks|] == s.marks;
    GrowingKeepsInv(k, s, s.(syncs := s.syncs[n := Decided(s.syncs[n].batch, Cursor(s.marks, k.connectorId), |s.marks|)]), n);
  }

  lemma NextKeepsInv(k: Setting, s: State, e: Event, s': State)
    requires k.connectorId != OFFBOARDING_CONNECTOR_ID && Inv(k, s) && Next(k, s, e, s')
    ensures Inv(k, s') && s.marks <= s'.marks
  {
    match e
    case Emit(row) => EmitKeepsInv(k, s, row);
    case Begin(n) => BeginKeepsInv(k, s, n);
    case Pull(n, rows) => PullKeepsInv(k, s, n, rows);
    case Land(n) =>
      if Upserted(s.file, s.syncs[n].batch, k.connectorId, Append, k.checks).Some? {
        LandKeepsInv(k, s, n);
      } else {
        GrowingKeepsInv(k, s, s', n);
      }
    case Refresh(now) => RefreshKeepsInv(k, s, now);
    case ReadMark(n) => ReadMarkKeepsInv(k, s, n);
    case WriteMark(n) => WriteKeepsInv(k, s, n);
    case Crash(n) => GrowingKeepsInv(k, s, s', n);
    case OtherConnector(rows, owner, mode) => OtherConnectorKeepsInv(k, s, rows, owner, mode);
    case OtherMark(mark) => OtherMarkKeepsInv(k, s, mark);
  }

  // ----------------------------------------------------------------------- runs

  ghost predicate Chain(k: Setting, states: seq<State>, events: seq<Event>)
  {
    |states| == |events| + 1 && forall i :: 0 <= i < |events| ==> Next(k, states[i], events[i], states[i + 1])
  }

  /** The connector of the derived rows is never synced itself. */
  ghost predicate Run(k: Setting, states: seq<State>, events: seq<Event>)
  {
    k.connectorId != OFFBOARDING_CONNECTOR_ID && Chain(k, states, events) && states[0] == START
  }

  lemma RunTakesSteps(k: Setting, states: seq<State>, events: seq<Event>, i: nat)
    requires Run(k, states, events) && i < |events|
    ensures Next(k, states[i], events[i], states[i + 1])
  {
  }

  lemma {:induction false} RunKeepsInv(k: Setting, states: seq<State>, events: seq<Event>, i: nat)
    requires Run(k, states, events) && i < |states|
    ensures Inv(k, states[i])
  {
    if i > 0 {
      var j: nat := i - 1;
      RunKeepsInv(k, states, events, j);
      RunTakesSteps(k, states, events, j);
      NextKeepsInv(k, states[j], events[j], states[i]);
    }
  }

  lemma {:induction false} LogOnlyGrows(k: Setting, states: seq<State>, events: seq<Event>, j: nat, i: nat)
    requires Run(k, states, events) && j <= i < |states|
    ensures states[j].marks <= states[i].marks
  {
    if j < i {
      var p: nat := i - 1;
      LogOnlyGrows(k, states, events, j, p);
      RunKeepsInv(k, states, events, p);
      RunTakesSteps(k, states, events, p);
      NextKeepsInv(k, states[p], events[p], states[i]);
    }
  }

  /** In every run, with overlapping syncs, crashes and refused landings anywhere: no source row at or before the cursor, or
      before any cursor the connector ever had, is missing or stale in the file. */
  lemma NothingBehindTheCursorIsLost(k: Setting, states: seq<State>, events: seq<Event>, j: nat, i: nat)
    requires Run(k, states, events) && j <= i < |states|
    ensures forall row :: row in states[i].source && !Beyond(Cursor(states[j].marks, k.connectorId), row.eventTime)
              ==> Covers(states[i].file, row)
  {
    RunKeepsInv(k, states, events, i);
    LogOnlyGrows(k, states, events, j, i);
    CursorIsLastMark(states[j].marks, k.connectorId);
    if Cursor(states[j].marks, k.connectorId).Some? {
      var m := Mark(k.connectorId, Cursor(states[j].marks, k.connectorId).value);
      assert m in states[j].marks && m in states[i].marks;
      assert CoveredUpTo(states[i], m.cursor);
    }
  }

  // ------------------------------------------------------- when the cursor moves back

  lemma {:induction false} CursorOfAppended(a: seq<Mark>, b: seq<Mark>, connectorId: string)
    ensures Cursor(a + b, connectorId) == if Cursor(b, connectorId).Some? then Cursor(b, connectorId) else Cursor(a, connectorId)
  {
    if b == [] {
      assert a + b == a;
    } else {
      var n := |b| - 1;
      assert (a + b)[..|a| + n] == a + b[..n];
      CursorOfAppended(a, b[..n], connectorId);
    }
  }

  ghost predicate MovesBack(k: Setting, s: State, s': State)
  {
    var was, now := Cursor(s.marks, k.connectorId), Cursor(s'.marks, k.connectorId);
    was.Some? && (now.None? || now.value < was.value)
  }

  /** Since this sync read the cursor, another one has written a mark, and the latest such mark is newer than the batch. */
  ghost predicate Overtaken(k: Setting, s: State, p: Phase)
  {
    && Writes(p) && p.at <= |s.marks|
    && var since := Cursor(s.marks[p.at..], k.connectorId);
       since.Some? && LatestTime(p.batch) < since.value
  }

  /** An overtaken sync writes its mark. */
  ghost predicate WritesOvertaken(k: Setting, s: State, e: Event)
  {
    e.WriteMark? && e.n in s.syncs && Overtaken(k, s, s.syncs[e.n])
  }

  /** A step moves the cursor back exactly when an overtaken sync writes its mark. */
  lemma MovesBackIff(k: Setting, s: State, e: Event, s': State)
    requires Inv(k, s) && Next(k, s, e, s')
    ensures MovesBack(k, s, s') <==> WritesOvertaken(k, s, e)
  {
    match e
    case WriteMark(n) =>
      var p := s.syncs[n];
      assert PhaseInv(k, s, p);
      assert s.marks == s.marks[..p.at] + s.marks[p.at..];
      CursorOfAppended(s.marks[..p.at], s.marks[p.at..], k.connectorId);
      if Writes(p) { CursorOfAppended(s.marks, [Mark(k.connectorId, LatestTime(p.batch))], k.connectorId); }
    case OtherMark(mark) => CursorOfAppended(s.marks, [mark], k.connectorId);
    case _ =>
  }

  /** Over a whole run the cursor never moves back if and only if no sync is overtaken between its read and its write. */
  lemma CursorIsMonotoneIff(k: Setting, states: seq<State>, events: seq<Event>)
    requires Run(k, states, events)
    ensures (forall i :: 0 <= i < |events| ==> !MovesBack(k, states[i], states[i + 1]))
       <==> forall i :: 0 <= i < |events| ==> !WritesOvertaken(k, states[i], events[i])
  {
    if forall i :: 0 <= i < |events| ==> !WritesOvertaken(k, states[i], events[i]) {
      forall i | 0 <= i < |events| ensures !MovesBack(k, states[i], states[i + 1]) {
        StepMovesBackIff(k, states, events, i);
      }
    } else {
      var i :| 0 <= i < |events| && WritesOvertaken(k, states[i], events[i]);
      StepMovesBackIff(k, states, events, i);
    }
  }

  lemma StepMovesBackIff(k: Setting, states: seq<State>, events: seq<Event>, i: nat)
    requires Run(k, states, events) && i < |events|
    ensures MovesBack(k, states[i], states[i + 1]) <==> WritesOvertaken(k, states[i], events[i])
  {
    RunKeepsInv(k, states, events, i);
    RunTakesSteps(k, states, events, i);
    MovesBackIff(k, states[i], events[i], states[i + 1]);
  }

  // ------------------------------------------------------------ undisturbed syncs

  /** The two halves of the advance, with nothing between them, write what `AdvanceWatermark` writes. */
  lemma AdvanceInOneGo(k: Setting, marks: seq<Mark>, batch: seq<Row>)
    ensures Written(k, marks, Decided(batch, Cursor(marks, k.connectorId), |marks|)) == Advanced(marks, k.connectorId, batch, Append)
  {
  }

  ghost predicate Takes(k: Setting, s: State, events: seq<Event>, t: State)
    decreases |events|
  {
    if events == [] then s == t
    else exists m :: Next(k, s, events[0], m) && Takes(k, m, events[1..], t)
  }

  lemma TakesFirst(k: Setting, s: State, e: Event, m: State, rest: seq<Event>, t: State)
    requires Next(k, s, e, m) && Takes(k, m, rest, t)
    ensures Takes(k, s, [e] + rest, t)
  {
    assert ([e] + rest)[1..] == rest;
  }

  function SyncEvents(n: nat, rows: seq<Row>): seq<Event>
  {
    [Begin(n)] + ([Pull(n, rows)] + ([Land(n)] + LastEvents(n)))
  }

  function LastEvents(n: nat): seq<Event> { [ReadMark(n)] + ([WriteMark(n)] + []) }

  /** What a sync leaves when nothing comes between its steps. */
  function Synced(k: Setting, s: State, rows: seq<Row>): State
    requires Upserted(s.file, rows, k.connectorId, Append, k.checks).Some?
  {
    s.(file := Upserted(s.file, rows, k.connectorId, Append, k.checks).value,
       marks := Advanced(s.marks, k.connectorId, rows, Append))
  }

  /** The state with sync `n` in the given phase. */
  function With(s: State, n: nat, p: Phase): State { s.(syncs := s.syncs[n := p]) }

  lemma PullStep(k: Setting, s: State, n: nat, since: Option<Instant>, rows: seq<Row>)
    requires CompletePull(s.source, since, rows)
    ensures Next(k, With(s, n, Begun(since)), Pull(n, rows), With(s, n, Pulled(rows)))
  {
    assert With(s, n, Begun(since)).syncs[n := Pulled(rows)] == With(s, n, Pulled(rows)).syncs;
  }

  lemma LandStep(k: Setting, s: State, n: nat, rows: seq<Row>)
    requires Upserted(s.file, rows, k.connectorId, Append, k.checks).Some?
    ensures Next(k, With(s, n, Pulled(rows)), Land(n),
                 With(s.(file := Upserted(s.file, rows, k.connectorId, Append, k.checks).value), n, Landed(rows)))
  {
    assert With(s, n, Pulled(rows)).syncs[n := Landed(rows)] == s.syncs[n := Landed(rows)];
  }

  lemma ReadStep(k: Setting, s: State, n: nat, rows: seq<Row>)
    ensures Next(k, With(s, n, Landed(rows)), ReadMark(n), With(s, n, Decided(rows, Cursor(s.marks, k.connectorId), |s.marks|)))
  {
    var p := Decided(rows, Cursor(s.marks, k.connectorId), |s.marks|);
    assert With(s, n, Landed(rows)).syncs[n := p] == With(s, n, p).syncs;
  }

  lemma WriteStep(k: Setting, s: State, n: nat, p: Phase)
    requires n !in s.syncs && p.Decided?
    ensures Next(k, With(s, n, p), WriteMark(n), s.(marks := Written(k, s.marks, p)))
  {
    assert With(s, n, p).syncs - {n} == s.syncs;
  }

  lemma SyncRuns(k: Setting, s: State, n: nat, rows: seq<Row>)
    requires n !in s.syncs && CompletePull(s.source, Cursor(s.marks, k.connectorId), rows)
    requires Upserted(s.file, rows, k.connectorId, Append, k.checks).Some?
    ensures Takes(k, s, SyncEvents(n, rows), Synced(k, s, rows))
  {
    var cursor := Cursor(s.marks, k.connectorId);
    PullStep(k, s, n, cursor, rows);
    LandStep(k, s, n, rows);
    LandedSyncRuns(k, s.(file := Upserted(s.file, rows, k.connectorId, Append, k.checks).value), n, rows);
    TakesFirst(k, With(s, n, Pulled(rows)), Land(n), With(s.(file := Synced(k, s, rows).file), n, Landed(rows)), LastEvents(n), Synced(k, s, rows));
    TakesFirst(k, With(s, n, Begun(cursor)), Pull(n, rows), With(s, n, Pulled(rows)), [Land(n)] + LastEvents(n), Synced(k, s, rows));
    TakesFirst(k, s, Begin(n), With(s, n, Begun(cursor)), [Pull(n, rows)] + ([Land(n)] + LastEvents(n)), Synced(k, s, rows));
  }

  lemma LandedSyncRuns(k: Setting, s: State, n: nat, rows: seq<Row>)
    requires n !in s.syncs
    ensures Takes(k, With(s, n, Landed(rows)), LastEvents(n), s.(marks := Advanced(s.marks, k.connectorId, rows, Append)))
  {
    var p := Decided(rows, Cursor(s.marks, k.connectorId), |s.marks|);
    var t := s.(marks := Advanced(s.marks, k.connectorId, rows, Append));
    AdvanceInOneGo(k, s.marks, rows);
    ReadStep(k, s, n, rows);
    WriteStep(k, s, n, p);
    TakesFirst(k, With(s, n, p), WriteMark(n), t, [], t);
    TakesFirst(k, With(s, n, Landed(rows)), ReadMark(n), With(s, n, p), [WriteMark(n)] + [], t);
  }

  /** Rows of the file and of a pull never conflict when no two rows of the source do. */
  lemma PullIsConflictFree(k: Setting, s: State, pulled: seq<Row>)
    requires Inv(k, s) && ConflictFree(RowSet(s.source)) && forall row :: row in pulled ==> row in s.source
    ensures ConflictFree(RowSet(s.file) + RowSet(pulled))
  {
    forall a, b | a in RowSet(s.file) + RowSet(pulled) && b in RowSet(s.file) + RowSet(pulled) ensures !Conflict(a, b) {
      if KeyOf(a) == KeyOf(b) {
        if a.connectorId == k.connectorId {
          assert a in RowSet(s.source) && b in RowSet(s.source);
        } else {
          assert a in s.file && b in s.file;
        }
      }
    }
  }

  /** Whatever state a run has reached, with other syncs stuck anywhere: one undisturbed sync of a conflict-free, acceptable
      source succeeds and catches up with all of it. */
  lemma SyncCatchesUp(k: Setting, s: State, n: nat, pulled: seq<Row>)
    requires Inv(k, s) && n !in s.syncs && CompletePull(s.source, Cursor(s.marks, k.connectorId), pulled)
    requires ConflictFree(RowSet(s.source)) && Acceptable(RowSet(s.file) + RowSet(s.source), k.checks)
    ensures Upserted(s.file, pulled, k.connectorId, Append, k.checks).Some?
    ensures Takes(k, s, SyncEvents(n, pulled), Synced(k, s, pulled))
    ensures forall row :: row in s.source ==>
      Covers(Synced(k, s, pulled).file, row) && !Beyond(Cursor(Synced(k, s, pulled).marks, k.connectorId), row.eventTime)
  {
    PullLands(k, s, pulled);
    SyncRuns(k, s, n, pulled);
    PulledSkipsNone(k, s, pulled);
    LandKeepsFile(k, s, pulled);
    AdvancedPast(k, s.marks, pulled);
    forall row | row in s.source ensures Covers(Synced(k, s, pulled).file, row) {
      assert row in pulled || Covers(s.file, row);
    }
  }

  /** Where a sync begins, everything up to the cursor is in the file already. */
  lemma PulledSkipsNone(k: Setting, s: State, pulled: seq<Row>)
    requires Inv(k, s) && CompletePull(s.source, Cursor(s.marks, k.connectorId), pulled)
    ensures NoneSkipped(s, pulled)
    ensures forall row :: row in s.source ==> row in pulled || Covers(s.file, row)
  {
    CursorIsLastMark(s.marks, k.connectorId);
    forall row | row in s.source && row !in pulled ensures Covers(s.file, row) {
      var m := Mark(k.connectorId, Cursor(s.marks, k.connectorId).value);
      assert m in s.marks && CoveredUpTo(s, m.cursor);
    }
  }

  /** The new cursor is behind neither the old one nor any pulled row. */
  lemma AdvancedPast(k: Setting, marks: seq<Mark>, pulled: seq<Row>)
    ensures var after := Cursor(Advanced(marks, k.connectorId, pulled, Append), k.connectorId);
            && (forall row :: row in pulled ==> !Beyond(after, row.eventTime))
            && forall t :: !Beyond(Cursor(marks, k.connectorId), t) ==> !Beyond(after, t)
  {
    var after := Advanced(marks, k.connectorId, pulled, Append);
    if after != marks { assert after[..|marks|] == marks; }
  }

  lemma PullLands(k: Setting, s: State, pulled: seq<Row>)
    requires Inv(k, s) && forall row :: row in pulled ==> row in s.source
    requires ConflictFree(RowSet(s.source)) && Acceptable(RowSet(s.file) + RowSet(s.source), k.checks)
    ensures Upserted(s.file, pulled, k.connectorId, Append, k.checks).Some?
  {
    StampingOwnRows(pulled, k.connectorId);
    UniqueRepresents(s.file);
    PullIsConflictFree(k, s, pulled);
    PulledIsAcceptable(s, pulled, k.checks);
    AppendAbsorbsBatch(s.file, RowSet(s.file), pulled, k.connectorId, k.checks);
  }

  lemma PulledIsAcceptable(s: State, pulled: seq<Row>, checks: Checks)
    requires Acceptable(RowSet(s.file) + RowSet(s.source), checks) && forall row :: row in pulled ==> row in s.source
    ensures Acceptable(RowSet(s.file) + RowSet(pulled), checks)
  {
    assert RowSet(pulled) <= RowSet(s.source);
  }

  // --------------------------------------------------------- an overtaken sync

  lemma {:induction false} TakesThen(k: Setting, s: State, first: seq<Event>, m: State, rest: seq<Event>, t: State)
    requires Takes(k, s, first, m) && Takes(k, m, rest, t)
    ensures Takes(k, s, first + rest, t)
    decreases |first|
  {
    if first == [] {
      assert first + rest == rest;
    } else {
      var x :| Next(k, s, first[0], x) && Takes(k, x, first[1..], m);
      TakesThen(k, x, first[1..], m, rest, t);
      TakesFirst(k, s, first[0], x, first[1..] + rest, t);
      assert first + rest == [first[0]] + (first[1..] + rest);
    }
  }

  lemma TakesOne(k: Setting, s: State, e: Event, t: State)
    requires Next(k, s, e, t)
    ensures Takes(k, s, [e], t)
  {
    TakesFirst(k, s, e, t, [], t);
    assert [e] + [] == [e];
  }

  lemma {:induction false} TakesChain(k: Setting, s: State, events: seq<Event>, t: State) returns (states: seq<State>)
    requires Takes(k, s, events, t)
    ensures Chain(k, states, events) && states[0] == s && states[|events|] == t
    decreases |events|
  {
    if events == [] {
      states := [s];
    } else {
      var m :| Next(k, s, events[0], m) && Takes(k, m, events[1..], t);
      var rest := TakesChain(k, m, events[1..], t);
      states := [s] + rest;
      forall i | 0 <= i < |events| ensures Next(k, states[i], events[i], states[i + 1]) {
        if i > 0 { assert Next(k, rest[i - 1], events[1..][i - 1], rest[i]); }
      }
    }
  }

  /** An upsert of the connector's own rows leaves rows of the file and of the batch. */
  lemma OwnRowsLand(k: Setting, file: seq<Row>, rows: seq<Row>, all: set<Row>)
    requires RowSet(file) <= all && RowSet(rows) <= all && (forall row :: row in all ==> row.connectorId == k.connectorId)
    requires UniqueKeys(file) && ConflictFree(all) && Acceptable(all, k.checks)
    ensures var after := Upserted(file, rows, k.connectorId, Append, k.checks);
            after.Some? && UniqueKeys(after.value) && RowSet(after.value) <= all
  {
    assert forall row :: row in rows ==> row in RowSet(rows);
    StampingOwnRows(rows, k.connectorId);
    UniqueRepresents(file);
    assert RowSet(file) + RowSet(rows) <= all;
    AppendAbsorbsBatch(file, RowSet(file), rows, k.connectorId, k.checks);
  }

  /** Three rows of the connector, in the order of their times. */
  ghost predicate InSequence(k: Setting, a: Row, b: Row, c: Row)
  {
    && a.connectorId == b.connectorId == c.connectorId == k.connectorId
    && a.eventTime < b.eventTime < c.eventTime
    && ConflictFree({a, b, c}) && Acceptable({a, b, c}, k.checks)
  }

  /** Sync 0 brings the cursor to the first row. Sync 1 pulls the second, reads the cursor and is held up; sync 2 pulls and
      writes the third; then sync 1 writes its mark and takes the cursor back. */
  lemma OvertakenSyncMovesBack(k: Setting, a: Row, b: Row, c: Row)
    returns (first: State, overtaking: State, last: State, events: seq<Event>, more: seq<Event>)
    requires InSequence(k, a, b, c)
    ensures Takes(k, START, events, first) && Cursor(first.marks, k.connectorId) == Some(a.eventTime)
    ensures Takes(k, first, more, overtaking) && Cursor(overtaking.marks, k.connectorId) == Some(c.eventTime)
    ensures Next(k, overtaking, WriteMark(1), last) && Cursor(last.marks, k.connectorId) == Some(b.eventTime)
  {
    first, events := FirstSync(k, a, b, c);
    var held, one := HeldUpSync(k, first, a, b, c);
    var two: seq<Event>;
    overtaking, two := OvertakingSync(k, held, a, b, c);
    more := one + two;
    TakesThen(k, first, one, held, two, overtaking);
    var p := overtaking.syncs[1];
    last := overtaking.(marks := Written(k, overtaking.marks, p), syncs := overtaking.syncs - {1});
  }

  lemma FirstSync(k: Setting, a: Row, b: Row, c: Row) returns (t: State, events: seq<Event>)
    requires InSequence(k, a, b, c)
    ensures Takes(k, START, events, t) && t.source == [a] && t.syncs == map[]
    ensures t.marks == [Mark(k.connectorId, a.eventTime)] && UniqueKeys(t.file) && RowSet(t.file) <= {a, b, c}
  {
    var s := START.(source := [a]);
    assert [] + [a] == [a];
    TakesOne(k, START, Emit(a), s);
    OwnRowsLand(k, [], [a], {a, b, c});
    SyncRuns(k, s, 0, [a]);
    t := Synced(k, s, [a]);
    events := [Emit(a)] + SyncEvents(0, [a]);
    TakesThen(k, START, [Emit(a)], s, SyncEvents(0, [a]), t);
  }

  lemma HeldUpSync(k: Setting, s: State, a: Row, b: Row, c: Row) returns (t: State, events: seq<Event>)
    requires InSequence(k, a, b, c) && s.source == [a] && s.syncs == map[]
    requires s.marks == [Mark(k.connectorId, a.eventTime)] && UniqueKeys(s.file) && RowSet(s.file) <= {a, b, c}
    ensures Takes(k, s, events, t) && t.source == [a, b] && t.marks == s.marks
    ensures t.syncs == map[1 := Decided([b], Some(a.eventTime), 1)] && UniqueKeys(t.file) && RowSet(t.file) <= {a, b, c}
  {
    var since := Some(a.eventTime);
    var m := s.(source := [a, b]);
    assert [a] + [b] == [a, b];
    TakesOne(k, s, Emit(b), m);
    assert Cursor(m.marks, k.connectorId) == since;
    TakesOne(k, m, Begin(1), With(m, 1, Begun(since)));
    PullStep(k, m, 1, since, [b]);
    TakesOne(k, With(m, 1, Begun(since)), Pull(1, [b]), With(m, 1, Pulled([b])));
    OwnRowsLand(k, m.file, [b], {a, b, c});
    LandStep(k, m, 1, [b]);
    var landed := m.(file := Upserted(m.file, [b], k.connectorId, Append, k.checks).value);
    TakesOne(k, With(m, 1, Pulled([b])), Land(1), With(landed, 1, Landed([b])));
    ReadStep(k, landed, 1, [b]);
    t := With(landed, 1, Decided([b], since, 1));
    TakesOne(k, With(landed, 1, Landed([b])), ReadMark(1), t);
    TakesThen(k, s, [Emit(b)], m, [Begin(1)], With(m, 1, Begun(since)));
    TakesThen(k, s, [Emit(b)] + [Begin(1)], With(m, 1, Begun(since)), [Pull(1, [b])], With(m, 1, Pulled([b])));
    TakesThen(k, s, [Emit(b)] + [Begin(1)] + [Pull(1, [b])], With(m, 1, Pulled([b])), [Land(1)], With(landed, 1, Landed([b])));
    events := [Emit(b)] + [Begin(1)] + [Pull(1, [b])] + [Land(1)] + [ReadMark(1)];
    TakesThen(k, s, [Emit(b)] + [Begin(1)] + [Pull(1, [b])] + [Land(1)], With(landed, 1, Landed([b])), [ReadMark(1)], t);
  }

  lemma OvertakingSync(k: Setting, s: State, a: Row, b: Row, c: Row) returns (t: State, events: seq<Event>)
    requires InSequence(k, a, b, c) && s.source == [a, b] && s.marks == [Mark(k.connectorId, a.eventTime)]
    requires s.syncs == map[1 := Decided([b], Some(a.eventTime), 1)] && UniqueKeys(s.file) && RowSet(s.file) <= {a, b, c}
    ensures Takes(k, s, events, t) && t.syncs == s.syncs
    ensures t.marks == [Mark(k.connectorId, a.eventTime), Mark(k.connectorId, c.eventTime)]
  {
    var m := s.(source := [a, b, c]);
    EmitThird(k, s, a, b, c);
    TakesOne(k, s, Emit(c), m);
    OwnRowsLand(k, m.file, [b, c], {a, b, c});
    SyncRuns(k, m, 2, [b, c]);
    t := Synced(k, m, [b, c]);
    AdvanceToThird(k, a, b, c);
    events := [Emit(c)] + SyncEvents(2, [b, c]);
    TakesThen(k, s, [Emit(c)], m, SyncEvents(2, [b, c]), t);
  }

  lemma EmitThird(k: Setting, s: State, a: Row, b: Row, c: Row)
    requires InSequence(k, a, b, c) && s.source == [a, b] && s.marks == [Mark(k.connectorId, a.eventTime)]
    requires s.syncs == map[1 := Decided([b], Some(a.eventTime), 1)]
    ensures Next(k, s, Emit(c), s.(source := [a, b, c]))
    ensures Cursor(s.marks, k.connectorId) == Some(a.eventTime) && CompletePull([a, b, c], Some(a.eventTime), [b, c])
  {
    assert [a, b] + [c] == [a, b, c];
  }

  lemma AdvanceToThird(k: Setting, a: Row, b: Row, c: Row)
    requires InSequence(k, a, b, c)
    ensures Advanced([Mark(k.connectorId, a.eventTime)], k.connectorId, [b, c], Append)
         == [Mark(k.connectorId, a.eventTime), Mark(k.connectorId, c.eventTime)]
  {
    assert c in [b, c];
    assert [Mark(k.connectorId, a.eventTime)][..0] == [];
  }

  lemma ChainsJoin(k: Setting, a: seq<State>, e: seq<Event>, b: seq<State>, f: seq<Event>)
    requires Chain(k, a, e) && Chain(k, b, f) && a[|e|] == b[0]
    ensures Chain(k, a + b[1..], e + f)
  {
    var states, events := a + b[1..], e + f;
    forall i | 0 <= i < |events| ensures Next(k, states[i], events[i], states[i + 1]) {
      if i < |e| {
        assert Next(k, a[i], e[i], a[i + 1]);
      } else {
        assert Next(k, b[i - |e|], f[i - |e|], b[i - |e| + 1]);
      }
    }
  }

  function ExampleSetting(format: Format): Setting
  {
    Setting("c", format, Checks((row: Row) => true, (key: Key) => key.eventId))
  }

  function RowAt(eventId: string, t: Instant): Row { Row("c", eventId, t, "", None, None, "") }

  lemma ExampleInSequence(format: Format)
    ensures InSequence(ExampleSetting(format), RowAt("a", 5), RowAt("b", 10), RowAt("c", 20))
  {
    assert "a"[0] == 'a' && "b"[0] == 'b' && "c"[0] == 'c';
    var all := {RowAt("a", 5), RowAt("b", 10), RowAt("c", 20)};
    forall x, y | x in all && y in all ensures !Conflict(x, y) {}
  }

  /** A run in which the cursor reads 5, then 20, then 10. */
  lemma OvertakenSyncExample(format: Format) returns (states: seq<State>, events: seq<Event>, i: nat)
    ensures Run(ExampleSetting(format), states, events) && i < |events|
    ensures Cursor(states[i].marks, "c") == Some(5)
    ensures Cursor(states[|events| - 1].marks, "c") == Some(20) && Cursor(states[|events|].marks, "c") == Some(10)
  {
    var k := ExampleSetting(format);
    ExampleInSequence(format);
    var first, overtaking, last, start, more := OvertakenSyncMovesBack(k, RowAt("a", 5), RowAt("b", 10), RowAt("c", 20));
    var a := TakesChain(k, START, start, first);
    var b := TakesChain(k, first, more, overtaking);
    ChainsJoin(k, a, start, b, more);
    ChainsJoin(k, a + b[1..], start + more, [overtaking, last], [WriteMark(1)]);
    states, events, i := (a + b[1..]) + [overtaking, last][1..], (start + more) + [WriteMark(1)], |start|;
    assert |"c"| != |OFFBOARDING_CONNECTOR_ID|;
  }
}
