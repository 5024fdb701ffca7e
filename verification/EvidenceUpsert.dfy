/** Last-writer-wins merge of connector evidence into the raw event file (connector_runner.py). */
module EvidenceUpsert {
  import opened Dicts
  import opened Outcomes

  type Instant = int

  /** `source_event_key`: the connector that owns the row and its id at the source. */
  datatype Key = Key(connectorId: string, eventId: string)

  /** A raw event. `timeText` is the spelling of its event time, `body` every other member. */
  datatype Row = Row(connectorId: string, eventId: string, eventTime: Instant, timeText: string,
                     collectedAt: Option<Instant>, evidenceCollectedAt: Option<Instant>, body: string)

  /** What `content` keeps of a row: the collection stamps and the spelling of the event time are dropped. */
  datatype Content = Content(key: Key, eventTime: Instant, body: string)

  datatype WriteMode = Append | Snapshot

  function KeyOf(row: Row): Key { Key(row.connectorId, row.eventId) }

  function ContentOf(row: Row): Content { Content(KeyOf(row), row.eventTime, row.body) }

  /** `collected`: the collection time, falling back to the event time. */
  function Collected(row: Row): Instant
  {
    if row.collectedAt.Some? then row.collectedAt.value
    else if row.evidenceCollectedAt.Some? then row.evidenceCollectedAt.value
    else row.eventTime
  }

  predicate Newer(a: Row, b: Row)
  {
    a.eventTime > b.eventTime || (a.eventTime == b.eventTime && Collected(a) > Collected(b))
  }

  predicate SameMoment(a: Row, b: Row)
  {
    a.eventTime == b.eventTime && Collected(a) == Collected(b)
  }

  predicate Conflict(a: Row, b: Row)
  {
    KeyOf(a) == KeyOf(b) && SameMoment(a, b) && ContentOf(a) != ContentOf(b)
  }

  // ------------------------------------------------------------------- dedupe

  /** Position of the row that holds `key` in an insertion-ordered dict, or the length. */
  function Position(latest: seq<Row>, key: Key): (p: nat)
    ensures p <= |latest|
    ensures p < |latest| ==> KeyOf(latest[p]) == key
    ensures forall i :: 0 <= i < p ==> KeyOf(latest[i]) != key
  {
    if latest == [] then 0
    else if KeyOf(latest[0]) == key then 0
    else 1 + Position(latest[1..], key)
  }

  /** One iteration of `_dedupe_latest`; None is the raised conflict. */
  function Step(latest: seq<Row>, row: Row): Option<seq<Row>>
  {
    var p := Position(latest, KeyOf(row));
    if p == |latest| then Some(latest + [row])
    else if Newer(row, latest[p]) then Some(latest[p := row])
    else if Conflict(row, latest[p]) then None
    else Some(latest)
  }

  function Dedupe(rows: seq<Row>): Option<seq<Row>>
  {
    if rows == [] then Some([])
    else
      var n := |rows| - 1;
      match Dedupe(rows[..n])
      case None => None
      case Some(latest) => Step(latest, rows[n])
  }

  /** The hash tells contents apart, as the comparison of hashes takes for granted. */
  ghost predicate Separates(sha256: Content -> string)
  {
    forall a, b :: sha256(a) == sha256(b) ==> a == b
  }

  method DedupeLatest(rows: seq<Row>, sha256: Content -> string) returns (result: Option<seq<Row>>)
    requires Separates(sha256)
    ensures result == Dedupe(rows)
  {
    var latest := [];
    for i := 0 to |rows|
      invariant Dedupe(rows[..i]) == Some(latest)
    {
      assert rows[..i + 1][..i] == rows[..i];
      var next := Overwrite(latest, rows[i], sha256);
      if next.None? {
        DedupePrefix(rows, i + 1);
        return None;
      }
      latest := next.value;
    }
    assert rows[..|rows|] == rows;
    result := Some(latest);
  }

  /** The loop body, branch by branch. */
  method Overwrite(latest: seq<Row>, row: Row, sha256: Content -> string) returns (result: Option<seq<Row>>)
    requires Separates(sha256)
    ensures result == Step(latest, row)
  {
    var p := Position(latest, KeyOf(row));
    if p == |latest| {
      return Some(latest + [row]);
    }
    var prior := latest[p];
    if row.eventTime > prior.eventTime {
      return Some(latest[p := row]);
    } else if row.eventTime == prior.eventTime {
      if Collected(row) > Collected(prior) {
        return Some(latest[p := row]);
      } else if Collected(row) == Collected(prior) && sha256(ContentOf(row)) != sha256(ContentOf(prior)) {
        return None;
      }
    }
    result := Some(latest);
  }

  lemma {:induction false} DedupePrefix(rows: seq<Row>, n: nat)
    requires n <= |rows| && Dedupe(rows[..n]).None?
    ensures Dedupe(rows).None?
    decreases |rows| - n
  {
    if n == |rows| {
      assert rows[..n] == rows;
    } else {
      assert rows[..n + 1][..n] == rows[..n];
      DedupePrefix(rows, n + 1);
    }
  }

  // ------------------------------------------------- what a merge result means

  ghost predicate UniqueKeys(rows: seq<Row>) { OnePerKey(rows, KeyOf) }

  /** Some row of `latest` holds the key of `row` and is not older. */
  ghost predicate Covers(latest: seq<Row>, row: Row)
  {
    exists x :: x in latest && KeyOf(x) == KeyOf(row) && !Newer(row, x)
  }

  /** `latest` holds, for each key of `all`, one row of `all` that is maximal in (event time, collection time). */
  ghost predicate Represents(latest: seq<Row>, all: set<Row>)
  {
    && UniqueKeys(latest)
    && (forall x :: x in latest ==> x in all)
    && (forall row :: row in all ==> Covers(latest, row))
  }

  ghost predicate ConflictFree(all: set<Row>)
  {
    forall a, b :: a in all && b in all ==> !Conflict(a, b)
  }

  function RowSet(rows: seq<Row>): set<Row> { set row | row in rows }

  /** One step keeps every other row, and leaves at the row's key whichever of the two is newer. */
  lemma StepShape(latest: seq<Row>, row: Row)
    requires Step(latest, row).Some?
    ensures var p, after := Position(latest, KeyOf(row)), Step(latest, row).value;
            && p < |after| && |latest| <= |after| <= |latest| + 1
            && (forall i :: 0 <= i < |after| && i != p ==> i < |latest| && after[i] == latest[i])
            && (after[p] == row || (p < |latest| && after[p] == latest[p]))
            && KeyOf(after[p]) == KeyOf(row) && !Newer(row, after[p])
            && (p < |latest| ==> KeyOf(latest[p]) == KeyOf(row) && !Newer(latest[p], after[p]))
  {
  }

  lemma StepCovers(latest: seq<Row>, row: Row, r: Row)
    requires Step(latest, row).Some? && (Covers(latest, r) || r == row)
    ensures Covers(Step(latest, row).value, r)
  {
    StepShape(latest, row);
    var p, after := Position(latest, KeyOf(row)), Step(latest, row).value;
    if r == row {
      assert after[p] in after;
    } else {
      var x :| x in latest && KeyOf(x) == KeyOf(r) && !Newer(r, x);
      var i :| 0 <= i < |latest| && latest[i] == x;
      assert after[i] in after;
    }
  }

  lemma StepKeepsUnique(latest: seq<Row>, row: Row)
    requires UniqueKeys(latest) && Step(latest, row).Some?
    ensures UniqueKeys(Step(latest, row).value)
  {
    StepShape(latest, row);
  }

  lemma StepRepresents(latest: seq<Row>, row: Row, all: set<Row>)
    requires Represents(latest, all) && Step(latest, row).Some?
    ensures Represents(Step(latest, row).value, all + {row})
  {
    StepKeepsUnique(latest, row);
    StepShape(latest, row);
    forall r | r in all + {row} ensures Covers(Step(latest, row).value, r) {
      StepCovers(latest, row, r);
    }
    forall x | x in Step(latest, row).value ensures x in all + {row} {
      var i :| 0 <= i < |Step(latest, row).value| && Step(latest, row).value[i] == x;
      assert i < |latest| ==> latest[i] in latest;
    }
  }

  lemma StepSucceeds(latest: seq<Row>, row: Row, all: set<Row>)
    requires Represents(latest, all) && ConflictFree(all + {row})
    ensures Step(latest, row).Some?
  {
    var p := Position(latest, KeyOf(row));
    if p < |latest| {
      HeldIsKnown(latest, all, p);
      assert !Conflict(row, latest[p]);
    }
  }

  lemma HeldIsKnown(latest: seq<Row>, all: set<Row>, p: nat)
    requires Represents(latest, all) && p < |latest|
    ensures latest[p] in all
  {
    assert latest[p] in latest;
  }

  lemma {:induction false} DedupeRepresents(rows: seq<Row>)
    requires Dedupe(rows).Some?
    ensures Represents(Dedupe(rows).value, RowSet(rows))
  {
    if rows != [] {
      var n := |rows| - 1;
      DedupeRepresents(rows[..n]);
      RowSetNext(rows, n);
      StepRepresents(Dedupe(rows[..n]).value, rows[n], RowSet(rows[..n]));
    }
  }

  /** Two rows conflict when they agree on owner, source id, event time and collection time and differ in any other member. */
  lemma ConflictMeaning(a: Row, b: Row)
    ensures Conflict(a, b) <==>
            && a.connectorId == b.connectorId && a.eventId == b.eventId && a.eventTime == b.eventTime && a.body != b.body
            && (if a.collectedAt.Some? then a.collectedAt.value
                else if a.evidenceCollectedAt.Some? then a.evidenceCollectedAt.value else a.eventTime)
               == (if b.collectedAt.Some? then b.collectedAt.value
                   else if b.evidenceCollectedAt.Some? then b.evidenceCollectedAt.value else b.eventTime)
  {
  }

  /** In terms of the row's members: of one key, a merge keeps a row of the input with the latest event time, and among
      those the latest collection, read from `collected_at`, else `evidence_collected_at`, else the event time. */
  lemma MergeKeepsLatest(rows: seq<Row>, r: Row) returns (x: Row)
    requires Dedupe(rows).Some? && r in rows
    ensures x in Dedupe(rows).value && x in rows && x.connectorId == r.connectorId && x.eventId == r.eventId
    ensures forall y :: y in Dedupe(rows).value && y.connectorId == r.connectorId && y.eventId == r.eventId ==> y == x
    ensures r.eventTime <= x.eventTime
    ensures r.eventTime == x.eventTime ==>
      (if r.collectedAt.Some? then r.collectedAt.value
       else if r.evidenceCollectedAt.Some? then r.evidenceCollectedAt.value else r.eventTime)
      <= (if x.collectedAt.Some? then x.collectedAt.value
          else if x.evidenceCollectedAt.Some? then x.evidenceCollectedAt.value else x.eventTime)
  {
    DedupeRepresents(rows);
    var latest, p := Dedupe(rows).value, Position(Dedupe(rows).value, KeyOf(r));
    assert r in RowSet(rows);
    HeldIsNotOlder(latest, RowSet(rows), r);
    HeldIsKnown(latest, RowSet(rows), p);
    x := latest[p];
    assert x in latest;
    forall y | y in latest && y.connectorId == r.connectorId && y.eventId == r.eventId ensures y == x {
      OneHolder(latest, x, y);
    }
    NotNewerMeans(r, x);
  }

  lemma OneHolder(latest: seq<Row>, x: Row, y: Row)
    requires UniqueKeys(latest) && x in latest && y in latest && KeyOf(x) == KeyOf(y)
    ensures x == y
  {
    var i :| 0 <= i < |latest| && latest[i] == x;
    var j :| 0 <= j < |latest| && latest[j] == y;
  }

  lemma NotNewerMeans(r: Row, x: Row)
    requires !Newer(r, x)
    ensures r.eventTime <= x.eventTime
    ensures r.eventTime == x.eventTime ==>
      (if r.collectedAt.Some? then r.collectedAt.value
       else if r.evidenceCollectedAt.Some? then r.evidenceCollectedAt.value else r.eventTime)
      <= (if x.collectedAt.Some? then x.collectedAt.value
          else if x.evidenceCollectedAt.Some? then x.evidenceCollectedAt.value else x.eventTime)
  {
  }

  function Alert(status: string, collected: Instant): Row
  {
    Row("siem", "alert-1", 10, "10", Some(collected), None, status)
  }

  /** An alert of time 10, collected at 11 as open and at 20 as closed: it is closed, whichever is merged first. */
  lemma AlertClosesExample()
    ensures Dedupe([Alert("open", 11), Alert("closed", 20)]) == Some([Alert("closed", 20)])
    ensures Dedupe([Alert("closed", 20), Alert("open", 11)]) == Some([Alert("closed", 20)])
  {
    var open, closed := Alert("open", 11), Alert("closed", 20);
    DedupeNext([], open);
    DedupeNext([], closed);
    DedupeNext([open], closed);
    DedupeNext([closed], open);
    assert [] + [open] == [open] && [] + [closed] == [closed] && [open] + [closed] == [open, closed] && [closed] + [open] == [closed, open];
    assert Position([open], KeyOf(closed)) == 0 && Position([closed], KeyOf(open)) == 0;
    assert [open][0 := closed] == [closed];
  }

  lemma RowSetNext(rows: seq<Row>, n: nat)
    requires |rows| == n + 1
    ensures RowSet(rows) == RowSet(rows[..n]) + {rows[n]}
  {
    assert rows == rows[..n] + [rows[n]];
  }

  lemma {:induction false} DedupeSucceeds(rows: seq<Row>)
    requires ConflictFree(RowSet(rows))
    ensures Dedupe(rows).Some?
  {
    if rows != [] {
      var n := |rows| - 1;
      RowSetNext(rows, n);
      DedupeSucceeds(rows[..n]);
      DedupeRepresents(rows[..n]);
      StepSucceeds(Dedupe(rows[..n]).value, rows[n], RowSet(rows[..n]));
    }
  }

  /** The evidence a file asserts: the content per key and when it was collected. */
  ghost function View(latest: seq<Row>): map<Key, (Content, Instant)>
  {
    map key | key in (set row | row in latest :: KeyOf(row)) ::
      (ContentOf(latest[Position(latest, key)]), Collected(latest[Position(latest, key)]))
  }

  /** Files that represent the same conflict-free observations assert the same evidence. */
  lemma RepresentationsAgree(a: seq<Row>, b: seq<Row>, all: set<Row>)
    requires Represents(a, all) && Represents(b, all) && ConflictFree(all)
    ensures View(a) == View(b)
  {
    SameKeys(a, b, all);
    SameKeys(b, a, all);
    forall key | key in View(a) ensures View(a)[key] == View(b)[key] {
      SameEvidence(a, b, all, key);
    }
  }

  lemma SameEvidence(a: seq<Row>, b: seq<Row>, all: set<Row>, key: Key)
    requires Represents(a, all) && Represents(b, all) && ConflictFree(all)
    requires Position(a, key) < |a| && Position(b, key) < |b|
    ensures ContentOf(a[Position(a, key)]) == ContentOf(b[Position(b, key)])
    ensures Collected(a[Position(a, key)]) == Collected(b[Position(b, key)])
  {
    var x, y := a[Position(a, key)], b[Position(b, key)];
    assert x in a && y in b;
    assert Covers(a, y) && Covers(b, x);
    HolderIsUnique(a, x, y);
    HolderIsUnique(b, y, x);
    assert !Conflict(x, y);
  }

  lemma HolderIsUnique(latest: seq<Row>, x: Row, row: Row)
    requires UniqueKeys(latest) && x in latest && KeyOf(x) == KeyOf(row) && Covers(latest, row)
    ensures !Newer(row, x)
  {
  }

  lemma SameKeys(a: seq<Row>, b: seq<Row>, all: set<Row>)
    requires Represents(a, all) && Represents(b, all)
    ensures forall key :: key in View(a) ==> key in View(b)
  {
    forall key | key in View(a) ensures key in View(b) {
      var x :| x in a && KeyOf(x) == key;
      assert Covers(b, x);
    }
  }

  // ------------------------------------------------------- when a merge fails

  /** Rows i < j of one key tie on both timestamps with different content, and nothing before j is newer. */
  ghost predicate UnhiddenConflict(rows: seq<Row>, i: int, j: int)
  {
    && 0 <= i < j < |rows| && Conflict(rows[i], rows[j])
    && forall k :: 0 <= k < j && KeyOf(rows[k]) == KeyOf(rows[j]) ==> !Newer(rows[k], rows[j])
  }

  /** Rows that tie with the one kept for their key say the same thing. */
  ghost predicate Agrees(latest: seq<Row>, rows: seq<Row>)
  {
    forall x, row :: x in latest && row in rows ==> !Conflict(x, row)
  }

  lemma {:induction false} DedupeAgrees(rows: seq<Row>)
    requires Dedupe(rows).Some?
    ensures Agrees(Dedupe(rows).value, rows)
  {
    if rows != [] {
      var n := |rows| - 1;
      DedupeAgrees(rows[..n]);
      DedupeRepresents(rows[..n]);
      StepAgrees(Dedupe(rows[..n]).value, rows[n], rows[..n]);
      DedupeNext(rows[..n], rows[n]);
      SplitLast(rows);
    }
  }

  lemma SplitLast(rows: seq<Row>)
    requires rows != []
    ensures rows == rows[..|rows| - 1] + [rows[|rows| - 1]]
  {
  }

  lemma StepAgrees(latest: seq<Row>, row: Row, seen: seq<Row>)
    requires Represents(latest, RowSet(seen)) && Agrees(latest, seen) && Step(latest, row).Some?
    ensures Agrees(Step(latest, row).value, seen + [row])
  {
    forall x, r | x in Step(latest, row).value && r in seen + [row] ensures !Conflict(x, r) {
      StepAgreesWith(latest, row, seen, x, r);
    }
  }

  lemma StepAgreesWith(latest: seq<Row>, row: Row, seen: seq<Row>, x: Row, r: Row)
    requires Represents(latest, RowSet(seen)) && Agrees(latest, seen) && Step(latest, row).Some?
    requires x in Step(latest, row).value && r in seen + [row]
    ensures !Conflict(x, r)
  {
    StepMembers(latest, row, x);
    if x in latest {
      if r !in seen { KeptRowAgrees(latest, row, x); }
    } else if r in seen {
      NewRowAgrees(latest, row, seen, r);
    }
  }

  lemma StepMembers(latest: seq<Row>, row: Row, x: Row)
    requires Step(latest, row).Some? && x in Step(latest, row).value
    ensures x in latest || x == row
  {
  }

  lemma KeptRowAgrees(latest: seq<Row>, row: Row, x: Row)
    requires UniqueKeys(latest) && Step(latest, row).Some? && x in latest && x in Step(latest, row).value
    ensures !Conflict(x, row)
  {
    if KeyOf(x) == KeyOf(row) {
      assert x == latest[Position(latest, KeyOf(row))];
    }
  }

  lemma HeldIsNotOlder(latest: seq<Row>, all: set<Row>, r: Row)
    requires Represents(latest, all) && r in all
    ensures Position(latest, KeyOf(r)) < |latest| && !Newer(r, latest[Position(latest, KeyOf(r))])
  {
    assert Covers(latest, r);
    var x :| x in latest && KeyOf(x) == KeyOf(r) && !Newer(r, x);
    assert latest[Position(latest, KeyOf(r))] in latest;
    HolderIsUnique(latest, latest[Position(latest, KeyOf(r))], r);
  }

  lemma NewRowIsNewer(latest: seq<Row>, row: Row)
    requires Step(latest, row).Some? && row !in latest && row in Step(latest, row).value
    ensures Position(latest, KeyOf(row)) < |latest| ==> Newer(row, latest[Position(latest, KeyOf(row))])
  {
  }

  lemma NewRowAgrees(latest: seq<Row>, row: Row, seen: seq<Row>, r: Row)
    requires Represents(latest, RowSet(seen)) && Step(latest, row).Some?
    requires row !in latest && row in Step(latest, row).value && r in seen
    ensures !Conflict(row, r)
  {
    if KeyOf(r) == KeyOf(row) {
      HeldIsNotOlder(latest, RowSet(seen), r);
      NewRowIsNewer(latest, row);
    }
  }

  /** `_dedupe_latest` raises exactly when some conflict is not hidden by an earlier newer row. */
  lemma {:induction false} DedupeFailsIff(rows: seq<Row>)
    ensures Dedupe(rows).None? <==> exists i, j :: UnhiddenConflict(rows, i, j)
  {
    if rows != [] {
      var n := |rows| - 1;
      DedupeFailsIff(rows[..n]);
      ConflictsOfPrefix(rows, n);
      if Dedupe(rows[..n]).Some? {
        LastRowConflicts(rows, n);
      }
    }
  }

  lemma ConflictsOfPrefix(rows: seq<Row>, n: nat)
    requires |rows| == n + 1
    ensures (exists i, j :: UnhiddenConflict(rows, i, j))
       <==> (exists i, j :: UnhiddenConflict(rows[..n], i, j)) || exists i :: UnhiddenConflict(rows, i, n)
  {
    if i, j :| UnhiddenConflict(rows[..n], i, j) {
      assert UnhiddenConflict(rows, i, j);
    }
    if i, j :| UnhiddenConflict(rows, i, j) && j < n {
      assert UnhiddenConflict(rows[..n], i, j);
    }
  }

  lemma LastRowConflicts(rows: seq<Row>, n: nat)
    requires |rows| == n + 1 && Dedupe(rows[..n]).Some?
    ensures Dedupe(rows).None? <==> exists i :: UnhiddenConflict(rows, i, n)
  {
    var latest := Dedupe(rows[..n]).value;
    DedupeRepresents(rows[..n]);
    if Dedupe(rows).None? {
      FailureHasWitness(rows, n, latest);
    }
    if i :| UnhiddenConflict(rows, i, n) {
      DedupeAgrees(rows[..n]);
      WitnessForcesFailure(rows, n, latest, i);
    }
  }

  /** The row held for a key stands somewhere in the input. */
  lemma HeldPosition(latest: seq<Row>, seen: seq<Row>, p: nat) returns (i: nat)
    requires Represents(latest, RowSet(seen)) && p < |latest|
    ensures i < |seen| && seen[i] == latest[p]
  {
    HeldIsKnown(latest, RowSet(seen), p);
    i :| 0 <= i < |seen| && seen[i] == latest[p];
  }

  lemma FailureHasWitness(rows: seq<Row>, n: nat, latest: seq<Row>)
    requires |rows| == n + 1 && Represents(latest, RowSet(rows[..n])) && Step(latest, rows[n]).None?
    ensures exists i :: UnhiddenConflict(rows, i, n)
  {
    RefusalIsTie(latest, rows[n]);
    var i := HeldPosition(latest, rows[..n], Position(latest, KeyOf(rows[n])));
    forall k: nat | k < n && KeyOf(rows[k]) == KeyOf(rows[n]) ensures !Newer(rows[k], rows[n]) {
      NoneHides(rows, n, latest, k);
    }
    assert UnhiddenConflict(rows, i, n);
  }

  lemma RefusalIsTie(latest: seq<Row>, row: Row)
    requires Step(latest, row).None?
    ensures var p := Position(latest, KeyOf(row));
            p < |latest| && KeyOf(latest[p]) == KeyOf(row) && Conflict(latest[p], row) && SameMoment(latest[p], row)
  {
  }

  lemma NoneHides(rows: seq<Row>, n: nat, latest: seq<Row>, k: nat)
    requires |rows| == n + 1 && Represents(latest, RowSet(rows[..n])) && Step(latest, rows[n]).None?
    requires k < n && KeyOf(rows[k]) == KeyOf(rows[n])
    ensures !Newer(rows[k], rows[n])
  {
    RefusalIsTie(latest, rows[n]);
    assert rows[..n][k] in rows[..n];
    HeldIsNotOlder(latest, RowSet(rows[..n]), rows[k]);
  }

  lemma WitnessForcesFailure(rows: seq<Row>, n: nat, latest: seq<Row>, i: int)
    requires |rows| == n + 1 && Represents(latest, RowSet(rows[..n])) && Agrees(latest, rows[..n])
    requires UnhiddenConflict(rows, i, n)
    ensures Step(latest, rows[n]).None?
  {
    var p := Position(latest, KeyOf(rows[n]));
    assert rows[i] in rows[..n];
    HeldIsNotOlder(latest, RowSet(rows[..n]), rows[i]);
    var k := HeldPosition(latest, rows[..n], p);
    assert !Newer(rows[k], rows[n]);
    HeldAgrees(latest, rows[..n], p, rows[i]);
    TieForcesFailure(latest, rows[n], rows[i]);
  }

  lemma HeldAgrees(latest: seq<Row>, seen: seq<Row>, p: nat, row: Row)
    requires Agrees(latest, seen) && p < |latest| && row in seen
    ensures !Conflict(latest[p], row)
  {
    assert latest[p] in latest;
  }

  lemma TieForcesFailure(latest: seq<Row>, row: Row, earlier: Row)
    requires Conflict(earlier, row) && Position(latest, KeyOf(row)) < |latest|
    requires var prior := latest[Position(latest, KeyOf(row))];
             !Newer(earlier, prior) && !Newer(prior, row) && !Conflict(prior, earlier)
    ensures Step(latest, row).None?
  {
    TiedConflict(latest[Position(latest, KeyOf(row))], row, earlier);
  }

  lemma TiedConflict(prior: Row, row: Row, earlier: Row)
    requires KeyOf(prior) == KeyOf(row) && Conflict(earlier, row)
    requires !Newer(earlier, prior) && !Newer(prior, row) && !Conflict(prior, earlier)
    ensures !Newer(row, prior) && Conflict(row, prior)
  {
    assert SameMoment(prior, row);
  }

  /** The same three observations are accepted in one order and refused in another. */
  lemma ConflictsDependOnOrder(a: Row, b: Row, c: Row)
    requires KeyOf(a) == KeyOf(b) && Newer(b, a) && Conflict(a, c)
    ensures Dedupe([a, b, c]) == Some([b])
    ensures Dedupe([a, c, b]).None?
  {
    StepsOnSingletons(a, b, c);
    DedupeNext([], a);
    assert [] + [a] == [a];
    DedupeNext([a], b);
    assert [a] + [b] == [a, b];
    DedupeNext([a, b], c);
    assert [a, b] + [c] == [a, b, c];
    DedupeNext([a], c);
    assert [a] + [c] == [a, c];
    DedupeNext([a, c], b);
    assert [a, c] + [b] == [a, c, b];
  }

  lemma StepsOnSingletons(a: Row, b: Row, c: Row)
    requires KeyOf(a) == KeyOf(b) && Newer(b, a) && Conflict(a, c)
    ensures Step([], a) == Some([a])
    ensures Step([a], b) == Some([b]) && Step([b], c) == Some([b])
    ensures Step([a], c) == None
  {
    assert [] + [a] == [a] && [a][0 := b] == [b];
    assert Position([a], KeyOf(a)) == 0 && Position([b], KeyOf(a)) == 0;
  }

  lemma DedupeNext(rows: seq<Row>, row: Row)
    ensures Dedupe(rows + [row]) ==
            if Dedupe(rows).None? then None else Step(Dedupe(rows).value, row)
  {
    assert (rows + [row])[..|rows|] == rows;
  }
}
