/** What histories of append upserts leave behind, with the validation that can refuse them (connector_runner.py). */
module Convergence {
  import opened Orders
  import opened Outcomes
  import opened EvidenceUpsert
  import opened RawEvents

  datatype Batch = Batch(connectorId: string, rows: seq<Row>)

  /** The file after a history of append upserts, oldest first, on an empty one; an upsert that raises leaves it alone. */
  function FileAfter(batches: seq<Batch>, checks: Checks): seq<Row>
  {
    if batches == [] then []
    else
      var n := |batches| - 1;
      var before := FileAfter(batches[..n], checks);
      match Upserted(before, batches[n].rows, batches[n].connectorId, Append, checks)
      case None => before
      case Some(after) => after
  }

  lemma FileNext(batches: seq<Batch>, batch: Batch, checks: Checks)
    ensures FileAfter(batches + [batch], checks)
         == match Upserted(FileAfter(batches, checks), batch.rows, batch.connectorId, Append, checks)
            case None => FileAfter(batches, checks)
            case Some(after) => after
  {
    assert (batches + [batch])[..|batches|] == batches;
  }

  /** Every row delivered in the history, stamped with its connector. */
  function Delivered(batches: seq<Batch>): seq<Row>
  {
    if batches == [] then []
    else
      var n := |batches| - 1;
      Delivered(batches[..n]) + Stamped(batches[n].rows, batches[n].connectorId)
  }

  lemma DeliveredBatch(start: seq<Batch>, batch: Batch)
    ensures Delivered(start + [batch]) == Delivered(start) + Stamped(batch.rows, batch.connectorId)
  {
    assert (start + [batch])[..|start|] == start;
  }

  lemma {:induction false} FileRepresents(batches: seq<Batch>, checks: Checks)
    requires ConflictFree(RowSet(Delivered(batches))) && Acceptable(RowSet(Delivered(batches)), checks)
    ensures Represents(FileAfter(batches, checks), RowSet(Delivered(batches)))
  {
    if batches != [] {
      var n := |batches| - 1;
      var before, batch := Delivered(batches[..n]), Stamped(batches[n].rows, batches[n].connectorId);
      PoolOfAppend(before, batch);
      FileRepresents(batches[..n], checks);
      AppendAbsorbsBatch(FileAfter(batches[..n], checks), RowSet(before), batches[n].rows, batches[n].connectorId, checks);
    }
  }

  /** Deliveries of conflict-free, acceptable rows in any order, any grouping and any number of times leave the same
      evidence, the same as one dedupe of everything delivered. */
  lemma AppendConverges(batches: seq<Batch>, redelivered: seq<Batch>, checks: Checks)
    requires ConflictFree(RowSet(Delivered(batches))) && Acceptable(RowSet(Delivered(batches)), checks)
    requires RowSet(Delivered(batches)) == RowSet(Delivered(redelivered))
    ensures View(FileAfter(batches, checks)) == View(FileAfter(redelivered, checks))
    ensures Dedupe(Delivered(batches)).Some? && View(FileAfter(batches, checks)) == View(Dedupe(Delivered(batches)).value)
  {
    var all := RowSet(Delivered(batches));
    FileRepresents(batches, checks);
    FileRepresents(redelivered, checks);
    DedupeSucceeds(Delivered(batches));
    DedupeRepresents(Delivered(batches));
    RepresentationsAgree(FileAfter(batches, checks), FileAfter(redelivered, checks), all);
    RepresentationsAgree(FileAfter(batches, checks), Dedupe(Delivered(batches)).value, all);
  }

  // ---------------------------------------------------- what validation does to it

  ghost predicate Delivers(batches: seq<Batch>, all: set<Row>) { RowSet(Delivered(batches)) == all }

  /** Every history that delivers exactly these rows leaves the same evidence. */
  ghost predicate AllAgree(all: set<Row>, checks: Checks)
  {
    forall a, b :: Delivers(a, all) && Delivers(b, all) ==> View(FileAfter(a, checks)) == View(FileAfter(b, checks))
  }

  /** No row of the key is newer. */
  ghost predicate Peak(all: set<Row>, row: Row)
  {
    forall x :: x in all && KeyOf(x) == KeyOf(row) ==> !Newer(x, row)
  }

  function From(all: set<Row>, connectorId: string): set<Row> { set row | row in all && row.connectorId == connectorId }

  ghost predicate OneKey(rows: set<Row>)
  {
    forall a, b :: a in rows && b in rows ==> KeyOf(a) == KeyOf(b)
  }

  /** Validation refuses all rows of the connector, or none, or they share one key whose newest rows pass. */
  ghost predicate Settled(all: set<Row>, checks: Checks, connectorId: string)
  {
    var rows := From(all, connectorId);
    || (forall row :: row in rows ==> !checks.accepts(row))
    || (forall row :: row in rows ==> checks.accepts(row))
    || (OneKey(rows) && forall row :: row in rows && Peak(all, row) ==> checks.accepts(row))
  }

  /** Accepted rows of different keys have different identities. */
  ghost predicate ToldApart(all: set<Row>, checks: Checks)
  {
    forall a, b :: a in all && b in all && checks.accepts(a) && checks.accepts(b) && checks.identity(KeyOf(a)) == checks.identity(KeyOf(b))
      ==> KeyOf(a) == KeyOf(b)
  }

  /** For a given set of conflict-free rows: exactly when does the order, grouping and number of deliveries not matter? */
  lemma ConvergesIff(all: set<Row>, checks: Checks)
    requires ConflictFree(all)
    ensures AllAgree(all, checks) <==> ToldApart(all, checks) && forall c :: Settled(all, checks, c)
  {
    if ToldApart(all, checks) && forall c :: Settled(all, checks, c) {
      SettledConverges(all, checks);
    } else if !ToldApart(all, checks) {
      var a, b :| a in all && b in all && checks.accepts(a) && checks.accepts(b)
                  && checks.identity(KeyOf(a)) == checks.identity(KeyOf(b)) && KeyOf(a) != KeyOf(b);
      SharedIdentityDiverges(all, checks, a, b);
    } else {
      var c :| !Settled(all, checks, c);
      UnsettledDiverges(all, checks, c);
    }
  }

  // ------------------------------------------------------- settled rows converge

  function AcceptedOf(all: set<Row>, checks: Checks): set<Row> { set row | row in all && checks.accepts(row) }

  /** A file that came of rows of `seen`: it holds accepted ones, and covers every accepted peak among them. */
  ghost predicate Tracks(file: seq<Row>, seen: set<Row>, all: set<Row>, checks: Checks)
  {
    && UniqueKeys(file)
    && (forall x :: x in file ==> x in seen && checks.accepts(x))
    && (forall row :: row in seen && checks.accepts(row) && Peak(all, row) ==> Covers(file, row))
  }

  lemma LandedTracks(existing: seq<Row>, seen: set<Row>, incoming: seq<Row>, c: string, all: set<Row>, checks: Checks)
    requires ConflictFree(all) && Tracks(existing, seen, all, checks)
    requires seen + RowSet(Stamped(incoming, c)) <= all
    requires Upserted(existing, incoming, c, Append, checks).Some?
    ensures Tracks(Upserted(existing, incoming, c, Append, checks).value, seen + RowSet(Stamped(incoming, c)), all, checks)
  {
    var batch, after := RowSet(Stamped(incoming, c)), Upserted(existing, incoming, c, Append, checks).value;
    assert RowSet(existing) <= seen;
    UniqueRepresents(existing);
    MergeAbsorbsBatch(existing, RowSet(existing), incoming, c);
    forall row | row in seen + batch && checks.accepts(row) && Peak(all, row) ensures Covers(after, row) {
      if row in batch {
        assert row in RowSet(existing) + batch;
      } else {
        assert forall x :: x in existing ==> x in RowSet(existing) + batch;
        CoversThrough(after, existing, row);
      }
    }
  }

  /** A batch with an accepted peak lands: every row of the merge passes. */
  lemma PeakLands(existing: seq<Row>, seen: set<Row>, incoming: seq<Row>, c: string, all: set<Row>, checks: Checks, peak: Row)
    requires ConflictFree(all) && ToldApart(all, checks) && Settled(all, checks, c) && Tracks(existing, seen, all, checks)
    requires seen + RowSet(Stamped(incoming, c)) <= all
    requires peak in Stamped(incoming, c) && checks.accepts(peak) && Peak(all, peak)
    ensures Upserted(existing, incoming, c, Append, checks).Some?
  {
    assert RowSet(existing) <= seen;
    UniqueRepresents(existing);
    ConflictFreePart(RowSet(existing) + RowSet(Stamped(incoming, c)), all);
    MergeAbsorbsBatch(existing, RowSet(existing), incoming, c);
    MergedRowsPass(existing, Merged(existing, incoming, c, Append).value, RowSet(Stamped(incoming, c)), all, checks, c, peak);
    AcceptedAreValid(Merged(existing, incoming, c, Append).value, all, checks);
    ValidMergeLands(existing, incoming, c, checks);
  }

  lemma MergedRowsPass(existing: seq<Row>, merged: seq<Row>, batch: set<Row>, all: set<Row>, checks: Checks, c: string, peak: Row)
    requires Represents(merged, RowSet(existing) + batch) && RowSet(existing) + batch <= all && Settled(all, checks, c)
    requires (forall x :: x in existing ==> checks.accepts(x)) && forall x :: x in batch ==> x.connectorId == c
    requires peak in batch && checks.accepts(peak) && Peak(all, peak)
    ensures UniqueKeys(merged) && forall x :: x in merged ==> x in all && checks.accepts(x)
  {
    forall x | x in merged ensures x in all && checks.accepts(x) {
      assert x in RowSet(existing) + batch;
      if x !in existing {
        MergedRowPasses(merged, RowSet(existing) + batch, all, checks, c, peak, x);
      }
    }
  }

  lemma AcceptedAreValid(rows: seq<Row>, all: set<Row>, checks: Checks)
    requires UniqueKeys(rows) && ToldApart(all, checks) && forall x :: x in rows ==> x in all && checks.accepts(x)
    ensures ValidRows(rows, checks)
  {
    forall i, j | 0 <= i < j < |rows| ensures checks.identity(KeyOf(rows[i])) != checks.identity(KeyOf(rows[j])) {
      assert rows[i] in rows && rows[j] in rows;
    }
  }

  lemma MergedRowPasses(merged: seq<Row>, pool: set<Row>, all: set<Row>, checks: Checks, c: string, peak: Row, x: Row)
    requires Represents(merged, pool) && pool <= all && Settled(all, checks, c)
    requires peak in pool && peak.connectorId == c && checks.accepts(peak) && Peak(all, peak)
    requires x in merged && x.connectorId == c
    ensures checks.accepts(x)
  {
    if KeyOf(x) == KeyOf(peak) {
      assert Covers(merged, peak);
      HolderIsUnique(merged, x, peak);
      NotOlderIsPeak(all, peak, x);
    }
    SettledPasses(all, checks, c, peak, x);
  }

  lemma NotOlderIsPeak(all: set<Row>, peak: Row, x: Row)
    requires Peak(all, peak) && KeyOf(x) == KeyOf(peak) && !Newer(peak, x)
    ensures Peak(all, x)
  {
    forall z | z in all && KeyOf(z) == KeyOf(x) ensures !Newer(z, x) {
      assert !Newer(z, peak);
    }
  }

  lemma SettledPasses(all: set<Row>, checks: Checks, c: string, peak: Row, x: Row)
    requires Settled(all, checks, c) && peak in From(all, c) && checks.accepts(peak)
    requires x in From(all, c) && (KeyOf(x) == KeyOf(peak) ==> Peak(all, x))
    ensures checks.accepts(x)
  {
  }

  lemma {:induction false} HistoryTracks(batches: seq<Batch>, all: set<Row>, checks: Checks)
    requires ConflictFree(all) && ToldApart(all, checks) && forall c :: Settled(all, checks, c)
    requires RowSet(Delivered(batches)) <= all
    ensures Tracks(FileAfter(batches, checks), RowSet(Delivered(batches)), all, checks)
  {
    if batches != [] {
      var n := |batches| - 1;
      var before, rows, c := Delivered(batches[..n]), batches[n].rows, batches[n].connectorId;
      PoolOfAppend(before, Stamped(rows, c));
      HistoryTracks(batches[..n], all, checks);
      OneMoreTracks(FileAfter(batches[..n], checks), RowSet(before), rows, c, all, checks);
    }
  }

  lemma OneMoreTracks(existing: seq<Row>, seen: set<Row>, incoming: seq<Row>, c: string, all: set<Row>, checks: Checks)
    requires ConflictFree(all) && ToldApart(all, checks) && Settled(all, checks, c) && Tracks(existing, seen, all, checks)
    requires seen + RowSet(Stamped(incoming, c)) <= all
    ensures var after := Upserted(existing, incoming, c, Append, checks);
            Tracks(if after.Some? then after.value else existing, seen + RowSet(Stamped(incoming, c)), all, checks)
  {
    if peak :| peak in Stamped(incoming, c) && checks.accepts(peak) && Peak(all, peak) {
      PeakLands(existing, seen, incoming, c, all, checks, peak);
    }
    if Upserted(existing, incoming, c, Append, checks).Some? {
      LandedTracks(existing, seen, incoming, c, all, checks);
    }
  }

  lemma PeakAbove(rows: seq<Row>, row: Row) returns (peak: Row)
    requires ConflictFree(RowSet(rows)) && row in rows
    ensures peak in rows && KeyOf(peak) == KeyOf(row) && !Newer(row, peak) && Peak(RowSet(rows), peak)
  {
    DedupeSucceeds(rows);
    DedupeRepresents(rows);
    var latest := Dedupe(rows).value;
    assert row in RowSet(rows) && Covers(latest, row);
    peak :| peak in latest && KeyOf(peak) == KeyOf(row) && !Newer(row, peak);
    assert peak in RowSet(rows);
    forall x | x in RowSet(rows) && KeyOf(x) == KeyOf(peak) ensures !Newer(x, peak) {
      HolderIsUnique(latest, peak, x);
    }
  }

  lemma WholeHistoryRepresents(batches: seq<Batch>, all: set<Row>, checks: Checks)
    requires ConflictFree(all) && ToldApart(all, checks) && (forall c :: Settled(all, checks, c)) && Delivers(batches, all)
    ensures Represents(FileAfter(batches, checks), AcceptedOf(all, checks))
  {
    HistoryTracks(batches, all, checks);
    var file := FileAfter(batches, checks);
    forall row | row in AcceptedOf(all, checks) ensures Covers(file, row) {
      assert row in Delivered(batches);
      var peak := PeakAbove(Delivered(batches), row);
      assert peak in RowSet(Delivered(batches)) && Settled(all, checks, row.connectorId);
      assert row in From(all, row.connectorId) && peak in From(all, row.connectorId);
      CoversTransitive(file, peak, row);
    }
  }

  lemma SettledConverges(all: set<Row>, checks: Checks)
    requires ConflictFree(all) && ToldApart(all, checks) && forall c :: Settled(all, checks, c)
    ensures AllAgree(all, checks)
  {
    forall a, b | Delivers(a, all) && Delivers(b, all) ensures View(FileAfter(a, checks)) == View(FileAfter(b, checks)) {
      WholeHistoryRepresents(a, all, checks);
      WholeHistoryRepresents(b, all, checks);
      RepresentationsAgree(FileAfter(a, checks), FileAfter(b, checks), AcceptedOf(all, checks));
    }
  }

  // ----------------------------------------------------- other rows can diverge

  /** One row in a batch of its own. */
  function Alone(row: Row): Batch { Batch(row.connectorId, [row]) }

  lemma StampedSame(row: Row)
    ensures Stamped([row], row.connectorId) == [row]
  {
  }

  ghost function Listed(all: set<Row>): (rows: seq<Row>)
    ensures RowSet(rows) == all
  {
    if all == {} then []
    else
      var row :| row in all;
      PoolOfAppend([row], Listed(all - {row}));
      assert RowSet([row]) == {row};
      [row] + Listed(all - {row})
  }

  lemma AppendKeys(existing: seq<Row>, incoming: seq<Row>, c: string)
    requires Merged(existing, incoming, c, Append).Some?
    ensures Keys(Merged(existing, incoming, c, Append).value) == Keys(existing) + Keys(Stamped(incoming, c))
  {
    var newest := Dedupe(Stamped(incoming, c)).value;
    DedupeKeys(Stamped(incoming, c));
    DedupeKeys(existing + newest);
    assert forall x :: x in existing + newest <==> x in existing || x in newest;
  }

  /** A history followed by rows that are delivered one by one. */
  function Then(start: seq<Batch>, rows: seq<Row>): seq<Batch> { start + Map(rows, Alone) }

  lemma ThenNext(start: seq<Batch>, rows: seq<Row>)
    requires rows != []
    ensures Then(start, rows) == Then(start, rows[..|rows| - 1]) + [Alone(rows[|rows| - 1])]
  {
  }

  lemma {:induction false} ThenDelivers(start: seq<Batch>, rows: seq<Row>)
    ensures Delivered(Then(start, rows)) == Delivered(start) + rows
  {
    if rows == [] {
      assert Then(start, rows) == start;
    } else {
      var n := |rows| - 1;
      ThenDelivers(start, rows[..n]);
      ThenNext(start, rows);
      DeliveredNext(Then(start, rows[..n]), rows[n]);
      assert (Delivered(start) + rows[..n]) + [rows[n]] == Delivered(start) + rows;
    }
  }

  lemma DeliveredNext(start: seq<Batch>, row: Row)
    ensures Delivered(start + [Alone(row)]) == Delivered(start) + [row]
  {
    DeliveredBatch(start, Alone(row));
    StampedSame(row);
  }

  /** Keys stay, and none come but those delivered. */
  lemma {:induction false} ThenKeys(start: seq<Batch>, rows: seq<Row>, checks: Checks, key: Key)
    ensures key in Keys(FileAfter(start, checks)) ==> key in Keys(FileAfter(Then(start, rows), checks))
    ensures key in Keys(FileAfter(Then(start, rows), checks)) ==> key in Keys(FileAfter(start, checks)) + Keys(rows)
  {
    if rows == [] {
      assert Then(start, rows) == start;
    } else {
      var n := |rows| - 1;
      ThenKeys(start, rows[..n], checks, key);
      ThenNext(start, rows);
      ThenOne(Then(start, rows[..n]), rows[n], checks);
      KeysNext(rows);
    }
  }

  lemma KeysNext(rows: seq<Row>)
    requires rows != []
    ensures Keys(rows) == Keys(rows[..|rows| - 1]) + {KeyOf(rows[|rows| - 1])}
  {
    assert rows == rows[..|rows| - 1] + [rows[|rows| - 1]];
  }

  lemma ThenOne(start: seq<Batch>, row: Row, checks: Checks)
    ensures Keys(FileAfter(start, checks)) <= Keys(FileAfter(start + [Alone(row)], checks)) <= Keys(FileAfter(start, checks)) + {KeyOf(row)}
  {
    FileNext(start, Alone(row), checks);
    StampedSame(row);
    if Merged(FileAfter(start, checks), [row], row.connectorId, Append).Some? {
      AppendKeys(FileAfter(start, checks), [row], row.connectorId);
      assert Keys([row]) == {KeyOf(row)};
    }
  }

  lemma {:induction false} FilesAreValid(batches: seq<Batch>, checks: Checks)
    ensures ValidRows(FileAfter(batches, checks), checks)
  {
    if batches != [] { FilesAreValid(batches[..|batches| - 1], checks); }
  }

  lemma DifferentKeys(a: seq<Batch>, b: seq<Batch>, all: set<Row>, checks: Checks, key: Key)
    requires Delivers(a, all) && Delivers(b, all)
    requires key in Keys(FileAfter(a, checks)) && key !in Keys(FileAfter(b, checks))
    ensures !AllAgree(all, checks)
  {
    assert key in View(FileAfter(a, checks)) && key !in View(FileAfter(b, checks));
  }

  /** Two accepted keys with one identity: whichever comes first keeps the other out. */
  lemma SharedIdentityDiverges(all: set<Row>, checks: Checks, a: Row, b: Row)
    requires a in all && b in all && checks.accepts(a) && checks.accepts(b)
    requires checks.identity(KeyOf(a)) == checks.identity(KeyOf(b)) && KeyOf(a) != KeyOf(b)
    ensures !AllAgree(all, checks)
  {
    FirstKeepsOut(all, checks, a, b);
    FirstKeepsOut(all, checks, b, a);
    DifferentKeys(Then([Alone(a)], Listed(all)), Then([Alone(b)], Listed(all)), all, checks, KeyOf(a));
  }

  lemma FirstKeepsOut(all: set<Row>, checks: Checks, first: Row, other: Row)
    requires first in all && checks.accepts(first)
    requires checks.identity(KeyOf(first)) == checks.identity(KeyOf(other)) && KeyOf(first) != KeyOf(other)
    ensures Delivers(Then([Alone(first)], Listed(all)), all)
    ensures KeyOf(first) in Keys(FileAfter(Then([Alone(first)], Listed(all)), checks))
    ensures KeyOf(other) !in Keys(FileAfter(Then([Alone(first)], Listed(all)), checks))
  {
    var history := Then([Alone(first)], Listed(all));
    FileOfOne(first, checks);
    ThenDelivers([Alone(first)], Listed(all));
    PoolOfAppend([first], Listed(all));
    assert first in [first] && KeyOf(first) in Keys([first]);
    ThenKeys([Alone(first)], Listed(all), checks, KeyOf(first));
    FilesAreValid(history, checks);
    if KeyOf(other) in Keys(FileAfter(history, checks)) {
      OneKeyPerIdentity(FileAfter(history, checks), checks, KeyOf(first), KeyOf(other));
    }
  }

  lemma OneKeyPerIdentity(file: seq<Row>, checks: Checks, a: Key, b: Key)
    requires ValidRows(file, checks) && checks.identity(a) == checks.identity(b) && a in Keys(file) && b in Keys(file)
    ensures a == b
  {
    var x :| x in file && KeyOf(x) == a;
    var y :| y in file && KeyOf(y) == b;
    var i :| 0 <= i < |file| && file[i] == x;
    var j :| 0 <= j < |file| && file[j] == y;
    if i < j || j < i { assert checks.identity(KeyOf(file[i])) == checks.identity(KeyOf(file[j])); }
  }

  /** An unsettled connector has an accepted row, and a rejected one that takes a batch of the accepted row's key down. */
  lemma UnsettledDiverges(all: set<Row>, checks: Checks, c: string)
    requires ConflictFree(all) && !Settled(all, checks, c)
    ensures !AllAgree(all, checks)
  {
    var rows := From(all, c);
    var good :| good in rows && checks.accepts(good);
    var bad :| bad in rows && !checks.accepts(bad);
    if KeyOf(bad) != KeyOf(good) {
      BlockedBatchDiverges(all, checks, good, bad);
    } else if peak :| peak in rows && Peak(all, peak) && !checks.accepts(peak) {
      BlockedBatchDiverges(all, checks, good, peak);
    } else {
      var other :| other in rows && KeyOf(other) != KeyOf(bad);
      assert other in Listed(all) by { assert other in RowSet(Listed(all)); }
      var peak := PeakAbove(Listed(all), other);
      assert peak in RowSet(Listed(all)) && peak in rows;
      BlockedBatchDiverges(all, checks, peak, bad);
    }
  }

  function WithKey(key: Key): Row -> bool { (row: Row) => KeyOf(row) == key }

  function WithoutKey(key: Key): Row -> bool { (row: Row) => KeyOf(row) != key }

  /** The rows of a key, and the others. */
  ghost predicate Parts(all: set<Row>, key: Key, own: seq<Row>, rest: seq<Row>)
  {
    && RowSet(own) + RowSet(rest) == all
    && (forall row :: row in own ==> KeyOf(row) == key) && forall row :: row in rest ==> KeyOf(row) != key
  }

  lemma PartsOf(all: set<Row>, key: Key) returns (own: seq<Row>, rest: seq<Row>)
    ensures Parts(all, key, own, rest)
  {
    var rows := Listed(all);
    own, rest := Filter(rows, WithKey(key)), Filter(rows, WithoutKey(key));
    assert RowSet(rows) == all;
    forall row ensures row in RowSet(own) + RowSet(rest) <==> row in RowSet(rows) {
      assert WithKey(key)(row) || WithoutKey(key)(row);
    }
  }

  /** The batch that `bad` opens and the rows of a key fill. */
  function Blocked(bad: Row, own: seq<Row>): Batch { Batch(bad.connectorId, [bad] + own) }

  /** Delivered first, the good row stays; delivered only with the bad one, it never lands. */
  lemma BlockedBatchDiverges(all: set<Row>, checks: Checks, good: Row, bad: Row)
    requires ConflictFree(all) && good in all && bad in all && good.connectorId == bad.connectorId
    requires checks.accepts(good) && !checks.accepts(bad) && (KeyOf(bad) != KeyOf(good) || Peak(all, bad))
    ensures !AllAgree(all, checks)
  {
    var own, rest := PartsOf(all, KeyOf(good));
    BlockedHistories(all, good, bad, own, rest);
    GoodStays(good, Blocked(bad, own), rest, checks);
    BlockedIsRefused(all, checks, good, bad, own, rest);
    GoodNeverLands(good, Blocked(bad, own), rest, checks);
    DifferentKeys(Then([Alone(good), Blocked(bad, own)], rest), Then([Blocked(bad, own)], rest), all, checks, KeyOf(good));
  }

  lemma GoodStays(good: Row, batch: Batch, rest: seq<Row>, checks: Checks)
    requires checks.accepts(good)
    ensures KeyOf(good) in Keys(FileAfter(Then([Alone(good), batch], rest), checks))
  {
    FileOfOne(good, checks);
    FileNext([Alone(good)], batch, checks);
    assert [Alone(good)] + [batch] == [Alone(good), batch];
    assert good in [good];
    if Merged([good], batch.rows, batch.connectorId, Append).Some? { AppendKeys([good], batch.rows, batch.connectorId); }
    ThenKeys([Alone(good), batch], rest, checks, KeyOf(good));
  }

  lemma GoodNeverLands(good: Row, batch: Batch, rest: seq<Row>, checks: Checks)
    requires Upserted([], batch.rows, batch.connectorId, Append, checks).None?
    requires forall row :: row in rest ==> KeyOf(row) != KeyOf(good)
    ensures KeyOf(good) !in Keys(FileAfter(Then([batch], rest), checks))
  {
    FileNext([], batch, checks);
    assert [] + [batch] == [batch];
    ThenKeys([batch], rest, checks, KeyOf(good));
  }

  lemma BlockedHistories(all: set<Row>, good: Row, bad: Row, own: seq<Row>, rest: seq<Row>)
    requires good in all && bad in all && good.connectorId == bad.connectorId && Parts(all, KeyOf(good), own, rest)
    ensures Delivers(Then([Alone(good), Blocked(bad, own)], rest), all) && Delivers(Then([Blocked(bad, own)], rest), all)
  {
    var batch := Blocked(bad, own);
    BlockedIsOwn(good, bad, own);
    ThenDelivers([Alone(good), batch], rest);
    ThenDelivers([batch], rest);
    DeliveredBatch([], batch);
    DeliveredNext([], good);
    DeliveredBatch([Alone(good)], batch);
    assert [] + [batch] == [batch] && [] + [Alone(good)] == [Alone(good)] && [Alone(good)] + [batch] == [Alone(good), batch];
    assert [] + batch.rows == batch.rows && [] + [good] == [good];
    BlockedRows(all, good, bad, own, rest);
  }

  lemma BlockedIsOwn(good: Row, bad: Row, own: seq<Row>)
    requires good.connectorId == bad.connectorId && forall row :: row in own ==> KeyOf(row) == KeyOf(good)
    ensures Stamped([bad] + own, bad.connectorId) == [bad] + own
  {
    StampingOwnRows([bad] + own, bad.connectorId);
  }

  lemma BlockedRows(all: set<Row>, good: Row, bad: Row, own: seq<Row>, rest: seq<Row>)
    requires good in all && bad in all && RowSet(own) + RowSet(rest) == all
    ensures RowSet(([bad] + own) + rest) == all && RowSet(([good] + ([bad] + own)) + rest) == all
  {
    PoolOfAppend([bad] + own, rest);
    PoolOfAppend([good] + ([bad] + own), rest);
    PoolOfAppend([good], [bad] + own);
    PoolOfAppend([bad], own);
    assert RowSet([bad]) == {bad} && RowSet([good]) == {good};
  }

  lemma BlockedIsRefused(all: set<Row>, checks: Checks, good: Row, bad: Row, own: seq<Row>, rest: seq<Row>)
    requires bad in all && good.connectorId == bad.connectorId && Parts(all, KeyOf(good), own, rest)
    requires !checks.accepts(bad) && (KeyOf(bad) != KeyOf(good) || Peak(all, bad))
    ensures Upserted([], [bad] + own, bad.connectorId, Append, checks).None?
  {
    BlockedIsOwn(good, bad, own);
    if Dedupe([bad] + own).Some? {
      assert forall row :: row in own ==> row in RowSet(own);
      FirstStays(bad, own);
      RejectedFirst([bad] + own, bad, checks);
    }
  }

  lemma RejectedFirst(rows: seq<Row>, bad: Row, checks: Checks)
    requires Dedupe(rows).Some? && Dedupe(rows).value != [] && Dedupe(rows).value[0] == bad && !checks.accepts(bad)
    ensures Dedupe([] + Dedupe(rows).value) == Dedupe(rows) && !ValidRows(Dedupe(rows).value, checks)
  {
    var newest := Dedupe(rows).value;
    DedupeRepresents(rows);
    assert [] + newest == newest;
    DedupeUnique(newest);
    assert newest[0] in newest;
  }

  /** The first row of a key stays when no later one is newer. */
  lemma {:induction false} FirstStays(first: Row, rows: seq<Row>)
    requires Dedupe([first] + rows).Some? && forall x :: x in rows && KeyOf(x) == KeyOf(first) ==> !Newer(x, first)
    ensures Dedupe([first] + rows).value != [] && Dedupe([first] + rows).value[0] == first
  {
    if rows == [] {
      assert [first] + rows == [first];
      DedupeUnique([first]);
    } else {
      var n := |rows| - 1;
      assert [first] + rows == ([first] + rows[..n]) + [rows[n]];
      DedupeNext([first] + rows[..n], rows[n]);
      FirstStays(first, rows[..n]);
      assert rows[n] in rows;
    }
  }

  // ----------------------------------------------------------------- examples

  /** Landing one row on a file without its key. */
  lemma LandAlone(existing: seq<Row>, row: Row, checks: Checks)
    requires UniqueKeys(existing + [row])
    ensures Upserted(existing, [row], row.connectorId, Append, checks)
         == if ValidRows(existing + [row], checks) then Some(existing + [row]) else None
  {
    StampedSame(row);
    DedupeUnique([row]);
    DedupeUnique(existing + [row]);
  }

  lemma LandFirst(row: Row, checks: Checks)
    ensures Upserted([], [row], row.connectorId, Append, checks) == if checks.accepts(row) then Some([row]) else None
  {
    assert [] + [row] == [row];
    LandAlone([], row, checks);
    assert row in [row];
  }

  lemma FileOfOne(row: Row, checks: Checks)
    ensures FileAfter([Alone(row)], checks) == if checks.accepts(row) then [row] else []
    ensures Delivered([Alone(row)]) == [row]
  {
    FileNext([], Alone(row), checks);
    DeliveredNext([], row);
    assert [] + [Alone(row)] == [Alone(row)] && [] + [row] == [row];
    LandFirst(row, checks);
  }

  lemma ValidTwo(a: Row, b: Row, checks: Checks)
    ensures ValidRows([a, b], checks)
       <==> checks.accepts(a) && checks.accepts(b) && checks.identity(KeyOf(a)) != checks.identity(KeyOf(b))
  {
    var rows := [a, b];
    assert a in rows && b in rows && rows[0] == a && rows[1] == b;
  }

  lemma StampedPair(a: Row, b: Row)
    requires a.connectorId == b.connectorId
    ensures Stamped([a, b], b.connectorId) == [a, b]
  {
  }

  lemma DedupePair(a: Row, b: Row)
    requires KeyOf(a) != KeyOf(b)
    ensures Dedupe([a]) == Some([a]) && Dedupe([a, b]) == Some([a, b])
  {
    DedupeUnique([a]);
    DedupeUnique([a, b]);
  }

  lemma FileOfPair(bad: Row, good: Row, checks: Checks)
    requires bad.connectorId == good.connectorId && KeyOf(bad) != KeyOf(good) && !checks.accepts(bad)
    ensures Delivered([Batch(good.connectorId, [bad, good])]) == [bad, good]
    ensures FileAfter([Batch(good.connectorId, [bad, good])], checks) == []
  {
    var batch := Batch(good.connectorId, [bad, good]);
    FileNext([], batch, checks);
    DeliveredBatch([], batch);
    StampedPair(bad, good);
    DedupePair(bad, good);
    ValidTwo(bad, good, checks);
    assert [] + [batch] == [batch] && [] + [bad, good] == [bad, good];
  }

  /** A rejected row of the only key, superseded by an accepted one, makes no difference. */
  lemma SupersededRowIsHarmless(k: Row, k2: Row, checks: Checks)
    requires KeyOf(k) == KeyOf(k2) && Newer(k2, k) && checks.accepts(k2)
    ensures AllAgree({k, k2}, checks)
  {
    var all := {k, k2};
    assert forall x :: x in all <==> x == k || x == k2;
    NewestOfPair(all, k, k2);
    forall c ensures Settled(all, checks, c) {
      PairIsSettled(all, k, k2, checks, c);
    }
    assert ConflictFree(all) && ToldApart(all, checks);
    SettledConverges(all, checks);
  }

  lemma NewestOfPair(all: set<Row>, k: Row, k2: Row)
    requires Newer(k2, k) && KeyOf(k) == KeyOf(k2) && k2 in all
    ensures !Peak(all, k)
  {
  }

  lemma PairIsSettled(all: set<Row>, k: Row, k2: Row, checks: Checks, c: string)
    requires (forall x :: x in all <==> x == k || x == k2) && KeyOf(k) == KeyOf(k2) && !Peak(all, k) && checks.accepts(k2)
    ensures Settled(all, checks, c)
  {
    assert forall row :: row in From(all, c) ==> row == k || row == k2;
  }

  /** A rejected old row delivered with another key's row, and a later row of its own key: the order decides what survives. */
  lemma RefusedBatchDiverges(k: Row, m: Row, k2: Row, checks: Checks)
    requires k.connectorId == m.connectorId && KeyOf(k) == KeyOf(k2) != KeyOf(m) && Newer(k2, k)
    requires !checks.accepts(k) && checks.accepts(m) && checks.accepts(k2) && checks.identity(KeyOf(k2)) != checks.identity(KeyOf(m))
    ensures ConflictFree({k, m, k2})
    ensures FileAfter([Batch(m.connectorId, [k, m]), Alone(k2)], checks) == [k2]
    ensures FileAfter([Alone(k2), Batch(m.connectorId, [k, m])], checks) == [k2, m]
  {
    RefusedFirst(k, m, k2, checks);
    RefusedLast(k, m, k2, checks);
  }

  function ExampleRow(eventId: string, time: Instant, body: string): Row { Row("c", eventId, time, "", None, None, body) }

  function ExampleChecks(): Checks { Checks((row: Row) => row.body != "bad", (key: Key) => key.eventId) }

  lemma RefusedBatchExample()
    ensures var k, m, k2 := ExampleRow("k", 1, "bad"), ExampleRow("m", 1, "good"), ExampleRow("k", 2, "good");
            && ConflictFree({k, m, k2})
            && FileAfter([Batch("c", [k, m]), Batch("c", [k2])], ExampleChecks()) == [k2]
            && FileAfter([Batch("c", [k2]), Batch("c", [k, m])], ExampleChecks()) == [k2, m]
  {
    var k, m, k2 := ExampleRow("k", 1, "bad"), ExampleRow("m", 1, "good"), ExampleRow("k", 2, "good");
    assert |"bad"| != |"good"| && "k"[0] != "m"[0];
    RefusedBatchDiverges(k, m, k2, ExampleChecks());
  }

  lemma RefusedFirst(k: Row, m: Row, k2: Row, checks: Checks)
    requires k.connectorId == m.connectorId == k2.connectorId && KeyOf(k) != KeyOf(m)
    requires !checks.accepts(k) && checks.accepts(k2)
    ensures FileAfter([Batch(m.connectorId, [k, m]), Alone(k2)], checks) == [k2]
  {
    FileOfPair(k, m, checks);
    FileNext([Batch(m.connectorId, [k, m])], Alone(k2), checks);
    assert [Batch(m.connectorId, [k, m])] + [Alone(k2)] == [Batch(m.connectorId, [k, m]), Alone(k2)];
    LandFirst(k2, checks);
    assert [] + [k2] == [k2];
  }

  lemma RefusedLast(k: Row, m: Row, k2: Row, checks: Checks)
    requires k.connectorId == m.connectorId && KeyOf(k) == KeyOf(k2) != KeyOf(m) && Newer(k2, k)
    requires checks.accepts(m) && checks.accepts(k2) && checks.identity(KeyOf(k2)) != checks.identity(KeyOf(m))
    ensures FileAfter([Alone(k2), Batch(m.connectorId, [k, m])], checks) == [k2, m]
  {
    FileOfOne(k2, checks);
    FileNext([Alone(k2)], Batch(m.connectorId, [k, m]), checks);
    assert [Alone(k2)] + [Batch(m.connectorId, [k, m])] == [Alone(k2), Batch(m.connectorId, [k, m])];
    StaleMerge(k, m, k2);
    ValidTwo(k2, m, checks);
  }

  lemma StaleMerge(k: Row, m: Row, k2: Row)
    requires k.connectorId == m.connectorId && KeyOf(k) == KeyOf(k2) != KeyOf(m) && Newer(k2, k)
    ensures Merged([k2], [k, m], m.connectorId, Append) == Some([k2, m])
  {
    StampedPair(k, m);
    DedupePair(k, m);
    DedupeStale(k2, k, m);
    assert [k2] + [k, m] == [k2, k, m];
  }

  lemma DedupeStale(k2: Row, k: Row, m: Row)
    requires KeyOf(k) == KeyOf(k2) != KeyOf(m) && Newer(k2, k)
    ensures Dedupe([k2, k, m]) == Some([k2, m])
  {
    DedupeUnique([k2]);
    DedupeNext([k2], k);
    DedupeNext([k2, k], m);
    assert [k2] + [k] == [k2, k] && [k2, k] + [m] == [k2, k, m] && [k2] + [m] == [k2, m];
    assert Step([k2], k) == Some([k2]) by { assert Position([k2], KeyOf(k)) == 0; }
    assert Step([k2], m) == Some([k2, m]) by { assert Position([k2], KeyOf(m)) == 1; }
  }
}
