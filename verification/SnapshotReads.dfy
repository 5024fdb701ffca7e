/** Limited and point-in-time reads of the snapshot ledger (assessment.py). */
module SnapshotReads {
  import opened Outcomes
  import opened Orders
  import opened SnapshotLedger

  function StampOf(env: Env, entry: Record): Option<int>
  {
    if entry.Entry? && entry.evaluatedAt.Some? then env.parse(entry.evaluatedAt.value) else None
  }

  /** The i-th entry as a read row; the defaults are never reached in an accepted ledger. */
  function RowAt(env: Env, lake: Lake): nat -> Row
  {
    (i: nat) =>
      if i >= |lake.entries| then Row(0, Payload(Body(Absent, "", ""), Absent), "")
      else
        var entry := lake.entries[i];
        Row(if StampOf(env, entry).Some? then StampOf(env, entry).value else 0,
            if PayloadAt(lake, i).Some? then PayloadAt(lake, i).value else Payload(Body(Absent, "", ""), Absent),
            if entry.Entry? && entry.snapshot.Some? then entry.snapshot.value else "")
  }

  predicate Earlier(a: Row, b: Row) { a.time <= b.time }

  function EarlierEntry(env: Env, lake: Lake): (nat, nat) -> bool
  {
    (i: nat, j: nat) => RowAt(env, lake)(i).time <= RowAt(env, lake)(j).time
  }

  function Selection(env: Env, lake: Lake, limit: Option<int>): set<nat>
  {
    if limit.Some? && limit.value > 0 then
      set i | i in LastOf(SortBy(Indices(|lake.entries|), EarlierEntry(env, lake)), limit.value)
    else set i | i in Indices(|lake.entries|)
  }

  /** `_snapshot_chain_rows`: a positive limit first needs every timestamp, then selects the newest entries. */
  function ChainReport(env: Env, lake: Lake, limit: Option<int>): Report
  {
    if limit.Some? && limit.value > 0 && (exists i :: 0 <= i < |lake.entries| && StampOf(env, lake.entries[i]).None?) then
      Report([], [InvalidTimestamp], |lake.entries|)
    else Verified(env, lake, Selection(env, lake, limit), false)
  }

  /** `_iter_snapshots`; None is the raised integrity error. */
  function IterSnapshots(env: Env, lake: Lake, limit: Option<int>): Option<seq<Row>>
  {
    var report := ChainReport(env, lake, limit);
    if report.Ok() then Some(SortBy(report.rows, Earlier)) else None
  }

  /** A bounded read accepts and rejects exactly the lakes that a full read does. */
  lemma VerdictIgnoresLimit(env: Env, lake: Lake, limit: Option<int>)
    ensures ChainReport(env, lake, limit).Ok() <==> ChainReport(env, lake, None).Ok()
    ensures ChainReport(env, lake, limit).Ok() <==> Sound(env, lake) && NoOrphans(lake)
  {
    VerifierAcceptsIff(env, lake, Selection(env, lake, limit), false);
    VerifierAcceptsIff(env, lake, Selection(env, lake, None), false);
    if i :| 0 <= i < |lake.entries| && StampOf(env, lake.entries[i]).None? {
      assert Sound(env, lake) ==> SoundEntry(env, lake, i);
    }
  }

  /** A limit of zero or less reads everything, and a positive one first refuses entries without a time, and only those. */
  lemma LimitMeaning(env: Env, lake: Lake, limit: int)
    ensures limit <= 0 ==> IterSnapshots(env, lake, Some(limit)) == IterSnapshots(env, lake, None)
    ensures limit > 0 ==>
              (ChainReport(env, lake, Some(limit)).issues == [InvalidTimestamp] <==>
               exists entry :: entry in lake.entries && (entry == NotADict || entry.evaluatedAt.None? || env.parse(entry.evaluatedAt.value).None?))
  {
    if limit > 0 {
      var report := Verified(env, lake, Selection(env, lake, Some(limit)), false);
      ScanReportsEntries(env, lake, |lake.entries|, Selection(env, lake, Some(limit)));
      assert InvalidTimestamp !in report.issues && InvalidTimestamp in [InvalidTimestamp];
      WithoutTime(env, lake);
    }
  }

  lemma WithoutTime(env: Env, lake: Lake)
    ensures (exists i :: 0 <= i < |lake.entries| && StampOf(env, lake.entries[i]).None?) <==>
            exists entry :: entry in lake.entries && (entry == NotADict || entry.evaluatedAt.None? || env.parse(entry.evaluatedAt.value).None?)
  {
    if i :| 0 <= i < |lake.entries| && StampOf(env, lake.entries[i]).None? {
      assert lake.entries[i] in lake.entries;
    }
    if entry :| entry in lake.entries && (entry == NotADict || entry.evaluatedAt.None? || env.parse(entry.evaluatedAt.value).None?) {
      var i :| 0 <= i < |lake.entries| && lake.entries[i] == entry;
      assert StampOf(env, lake.entries[i]).None?;
    }
  }

  lemma {:induction false} ScanReportsEntries(env: Env, lake: Lake, n: nat, selected: set<nat>)
    requires n <= |lake.entries|
    ensures InvalidTimestamp !in ScanAll(env, lake, n, selected).issues
  {
    if n > 0 {
      ScanReportsEntries(env, lake, n - 1, selected);
      StepMeaning(env, lake.files, ScanAll(env, lake, n - 1, selected), n - 1, lake.entries[n - 1], (n - 1) in selected);
    }
  }

  lemma {:induction false} ScanRows(env: Env, lake: Lake, n: nat, selected: set<nat>)
    requires n <= |lake.entries| && SoundUpTo(env, lake, n)
    ensures ScanAll(env, lake, n, selected).rows == Map(Filter(Indices(n), Among(selected)), RowAt(env, lake))
  {
    if n > 0 {
      var m: nat := n - 1;
      ScanRows(env, lake, m, selected);
      ScanRowStep(env, lake, m, selected);
      NextSelected(m, selected, RowAt(env, lake));
      assert m + 1 == n;
    }
  }

  lemma NextSelected(m: nat, selected: set<nat>, at: nat -> Row)
    ensures Map(Filter(Indices(m + 1), Among(selected)), at)
            == Map(Filter(Indices(m), Among(selected)), at) + if m in selected then [at(m)] else []
  {
    var last: seq<nat> := [m];
    assert Indices(m + 1) == Indices(m) + last;
    FilterAppend(Indices(m), last, Among(selected));
    MapAppend(Filter(Indices(m), Among(selected)), Filter(last, Among(selected)), at);
  }

  lemma ScanRowStep(env: Env, lake: Lake, m: nat, selected: set<nat>)
    requires m < |lake.entries| && SoundUpTo(env, lake, m + 1)
    ensures ScanAll(env, lake, m + 1, selected).rows
            == ScanAll(env, lake, m, selected).rows + if m in selected then [RowAt(env, lake)(m)] else []
  {
    ScanVerdict(env, lake, m, selected);
    assert SoundEntry(env, lake, m);
    assert forall i :: 0 <= i < m ==> SoundEntry(env, lake, i);
  }

  lemma FilterSuffix(a: seq<nat>, k: nat)
    requires Distinct(a)
    ensures Filter(a, Among(set i | i in LastOf(a, k))) == LastOf(a, k)
  {
    var tail := LastOf(a, k);
    var front := a[..|a| - |tail|];
    assert a == front + tail;
    FilterAppend(front, tail, Among(set i | i in tail));
    FilterAll(tail, Among(set i | i in tail));
    FilterNone(front, Among(set i | i in tail));
  }

  /** The rows of a full read in an accepted lake: every entry, by time, ties in ledger order. */
  lemma FullRead(env: Env, lake: Lake)
    requires Sound(env, lake) && NoOrphans(lake)
    ensures IterSnapshots(env, lake, None) == Some(Map(SortBy(Indices(|lake.entries|), EarlierEntry(env, lake)), RowAt(env, lake)))
  {
    var n := |lake.entries|;
    VerdictIgnoresLimit(env, lake, None);
    ScanRows(env, lake, n, Selection(env, lake, None));
    FilterAll(Indices(n), Among(Selection(env, lake, None)));
    SortMap(Indices(n), RowAt(env, lake), EarlierEntry(env, lake), Earlier);
  }

  /** `_iter_snapshots(limit=k)` is the last k rows of the full read. */
  lemma LimitedReadIsSuffix(env: Env, lake: Lake, k: nat)
    requires k > 0
    ensures IterSnapshots(env, lake, Some(k)).Some? <==> IterSnapshots(env, lake, None).Some?
    ensures IterSnapshots(env, lake, None).Some? ==>
              IterSnapshots(env, lake, Some(k)).value == LastOf(IterSnapshots(env, lake, None).value, k)
  {
    VerdictIgnoresLimit(env, lake, Some(k));
    if Sound(env, lake) && NoOrphans(lake) {
      FullRead(env, lake);
      VerdictIgnoresLimit(env, lake, None);
      NewestEntries(env, lake, k);
      ScanRows(env, lake, |lake.entries|, Selection(env, lake, Some(k)));
      forall i | 0 <= i < |lake.entries| ensures StampOf(env, lake.entries[i]).Some? {
        assert SoundEntry(env, lake, i);
      }
      MapOfSuffix(SortBy(Indices(|lake.entries|), EarlierEntry(env, lake)), k, RowAt(env, lake));
    }
  }

  lemma MapOfSuffix(s: seq<nat>, k: nat, f: nat -> Row)
    ensures Map(LastOf(s, k), f) == LastOf(Map(s, f), k)
  {
  }

  /** Sorting the selected rows gives the newest k entries in order. */
  lemma NewestEntries(env: Env, lake: Lake, k: nat)
    requires k > 0
    ensures var le, at, n := EarlierEntry(env, lake), RowAt(env, lake), |lake.entries|;
            SortBy(Map(Filter(Indices(n), Among(Selection(env, lake, Some(k)))), at), Earlier)
            == Map(LastOf(SortBy(Indices(n), le), k), at)
  {
    var le, at, n := EarlierEntry(env, lake), RowAt(env, lake), |lake.entries|;
    var ordered := SortBy(Indices(n), le);
    var chosen := Among(Selection(env, lake, Some(k)));
    SortMap(Filter(Indices(n), chosen), at, le, Earlier);
    FilterSort(Indices(n), le, chosen);
    IndicesDistinct(n);
    DistinctMultiset(Indices(n), ordered);
    FilterSuffix(ordered, k);
  }

  // ------------------------------------------------------------ point in time

  function AtOrBefore(t: int): Row -> bool { (row: Row) => row.time <= t }

  /** The latest row; among rows of one time, the one ledgered last. */
  function Latest(rows: seq<Row>): Row
    requires rows != []
  {
    if |rows| == 1 then rows[0]
    else
      var rest := Latest(rows[1..]);
      if rows[0].time > rest.time then rows[0] else rest
  }

  lemma {:induction false} LastInserted(x: Row, s: seq<Row>)
    ensures var r := InsertBy(x, s, Earlier);
            r[|r| - 1] == if s == [] || !Earlier(x, s[|s| - 1]) then x else s[|s| - 1]
    requires Sorted(s, Earlier)
  {
    assert s != [] ==> Earlier(s[0], s[|s| - 1]);
    if s != [] && !Earlier(x, s[0]) {
      LastInserted(x, s[1..]);
    }
  }

  lemma {:induction false} LastOfSortIsLatest(rows: seq<Row>)
    requires rows != []
    ensures SortBy(rows, Earlier)[|rows| - 1] == Latest(rows)
  {
    var rest := SortBy(rows[1..], Earlier);
    assert SortBy(rows, Earlier) == InsertBy(rows[0], rest, Earlier);
    if |rows| > 1 {
      LastOfSortIsLatest(rows[1..]);
      SortIsSorted(rows[1..], Earlier);
    }
    LastInserted(rows[0], rest);
  }

  /** The answer of a point-in-time query. */
  datatype AsOf = AsOf(selected: Option<Row>, availableFrom: Option<int>, count: nat)

  function RowsAsOf(rows: seq<Row>, requested: int): Option<Row>
  {
    var eligible := Filter(rows, AtOrBefore(requested));
    if eligible == [] then None else Some(Latest(eligible))
  }

  /** `posture_as_of` over the rows of the ledger: the latest snapshot at or before the moment asked for. */
  method PostureAsOf(env: Env, lake: Lake, requested: int) returns (answer: Option<AsOf>)
    ensures answer.Some? <==> Sound(env, lake) && NoOrphans(lake)
    ensures answer.Some? ==> answer.value.selected == RowsAsOf(ChainReport(env, lake, None).rows, requested)
    ensures answer.Some? ==> answer.value.count == |lake.entries|
    ensures answer.Some? && answer.value.availableFrom.Some? ==>
              && (forall i :: 0 <= i < |lake.entries| ==> answer.value.availableFrom.value <= RowAt(env, lake)(i).time)
              && exists i :: 0 <= i < |lake.entries| && answer.value.availableFrom.value == RowAt(env, lake)(i).time
    ensures answer.Some? ==> (answer.value.availableFrom.None? <==> lake.entries == [])
  {
    VerdictIgnoresLimit(env, lake, None);
    var iterated := IterSnapshots(env, lake, None);
    if iterated.None? { return None; }
    var snapshots := iterated.value;
    ReadFacts(env, lake);
    var selected := SelectAsOf(ChainReport(env, lake, None).rows, snapshots, requested);
    answer := Some(AsOf(selected, if snapshots == [] then None else Some(snapshots[0].time), |snapshots|));
  }

  /** The scan over the time-ordered snapshots, which stops at the first later one. */
  method SelectAsOf(ghost rows: seq<Row>, snapshots: seq<Row>, requested: int) returns (selected: Option<Row>)
    requires snapshots == SortBy(rows, Earlier)
    ensures selected == RowsAsOf(rows, requested)
  {
    selected := None;
    var i := 0;
    while i < |snapshots| && snapshots[i].time <= requested
      invariant 0 <= i <= |snapshots|
      invariant forall j :: 0 <= j < i ==> snapshots[j].time <= requested
      invariant selected == if i == 0 then None else Some(snapshots[i - 1])
    {
      selected := Some(snapshots[i]);
      i := i + 1;
    }
    SelectedIsLatest(rows, requested, i);
  }

  lemma ReadFacts(env: Env, lake: Lake)
    requires Sound(env, lake) && NoOrphans(lake)
    ensures IterSnapshots(env, lake, None).Some?
    ensures var rows := IterSnapshots(env, lake, None).value;
            && |rows| == |lake.entries|
            && (rows != [] ==> forall i :: 0 <= i < |lake.entries| ==> rows[0].time <= RowAt(env, lake)(i).time)
            && (rows != [] ==> exists i :: 0 <= i < |lake.entries| && rows[0].time == RowAt(env, lake)(i).time)
  {
    FullRead(env, lake);
    var n := |lake.entries|;
    var le := EarlierEntry(env, lake);
    var ordered := SortBy(Indices(n), le);
    SortIsSorted(Indices(n), le);
    MultisetMembers(ordered, Indices(n));
    forall i: nat | i < n && ordered != [] ensures RowAt(env, lake)(ordered[0]).time <= RowAt(env, lake)(i).time {
      assert Indices(n)[i] == i;
      assert i in ordered;
      var p :| 0 <= p < |ordered| && ordered[p] == i;
      assert le(ordered[0], ordered[p]);
    }
    if n > 0 {
      assert ordered[0] in ordered && ordered[0] in Indices(n);
    }
  }

  lemma SelectedIsLatest(rows: seq<Row>, requested: int, i: nat)
    requires i <= |rows|
    requires forall j :: 0 <= j < i ==> SortBy(rows, Earlier)[j].time <= requested
    requires i < |rows| ==> SortBy(rows, Earlier)[i].time > requested
    ensures RowsAsOf(rows, requested) == if i == 0 then None else Some(SortBy(rows, Earlier)[i - 1])
  {
    SplitAt(rows, requested, i);
    if i > 0 {
      LastOfSortIsLatest(Filter(rows, AtOrBefore(requested)));
    }
  }

  lemma SplitAt(rows: seq<Row>, requested: int, i: nat)
    requires i <= |rows|
    requires forall j :: 0 <= j < i ==> SortBy(rows, Earlier)[j].time <= requested
    requires i < |rows| ==> SortBy(rows, Earlier)[i].time > requested
    ensures SortBy(Filter(rows, AtOrBefore(requested)), Earlier) == SortBy(rows, Earlier)[..i]
    ensures |Filter(rows, AtOrBefore(requested))| == i
  {
    SortIsSorted(rows, Earlier);
    FilterSort(rows, Earlier, AtOrBefore(requested));
    SortedSplit(SortBy(rows, Earlier), requested, i);
  }

  lemma SortedSplit(s: seq<Row>, requested: int, i: nat)
    requires Sorted(s, Earlier) && i <= |s|
    requires forall j :: 0 <= j < i ==> s[j].time <= requested
    requires i < |s| ==> s[i].time > requested
    ensures Filter(s, AtOrBefore(requested)) == s[..i]
  {
    assert s == s[..i] + s[i..];
    RestIsLater(s, requested, i);
    FilterSplit(s[..i], s[i..], AtOrBefore(requested));
  }

  lemma RestIsLater(s: seq<Row>, requested: int, i: nat)
    requires Sorted(s, Earlier) && i <= |s|
    requires i < |s| ==> s[i].time > requested
    ensures forall x :: x in s[i..] ==> x.time > requested
  {
    forall x | x in s[i..] ensures x.time > requested {
      var j :| i <= j < |s| && s[j] == x;
      assert Earlier(s[i], s[j]);
    }
  }

  lemma FilterSplit(a: seq<Row>, b: seq<Row>, p: Row -> bool)
    requires (forall x :: x in a ==> p(x)) && forall x :: x in b ==> !p(x)
    ensures Filter(a + b, p) == a
  {
    FilterAppend(a, b, p);
    FilterAll(a, p);
    FilterNone(b, p);
    assert a + [] == a;
  }

  /** Rows after the moment asked for, behind the others, do not matter. */
  lemma LaterRowsDoNotMatter(rows: seq<Row>, later: seq<Row>, requested: int)
    requires forall row :: row in later ==> row.time > requested
    ensures RowsAsOf(rows + later, requested) == RowsAsOf(rows, requested)
  {
    FilterAppend(rows, later, AtOrBefore(requested));
    FilterNone(later, AtOrBefore(requested));
    assert Filter(rows, AtOrBefore(requested)) + [] == Filter(rows, AtOrBefore(requested));
  }

  /** `Latest` has the largest time, and stands behind every other row of that time. */
  lemma {:induction false} LatestIsLastMaximum(rows: seq<Row>)
    requires rows != []
    ensures exists i :: 0 <= i < |rows| && rows[i] == Latest(rows) && IsLastMaximum(rows, i)
  {
    if |rows| == 1 {
      assert IsLastMaximum(rows, 0);
    } else {
      LatestIsLastMaximum(rows[1..]);
      var k :| 0 <= k < |rows[1..]| && rows[1..][k] == Latest(rows[1..]) && IsLastMaximum(rows[1..], k);
      assert forall j :: 1 <= j < |rows| ==> rows[j] == rows[1..][j - 1];
      if rows[0].time > Latest(rows[1..]).time {
        assert IsLastMaximum(rows, 0);
      } else {
        assert rows[k + 1] == Latest(rows) && IsLastMaximum(rows, k + 1);
      }
    }
  }

  ghost predicate IsLastMaximum(rows: seq<Row>, i: nat)
    requires i < |rows|
  {
    && (forall j :: 0 <= j < |rows| ==> rows[j].time <= rows[i].time)
    && (forall j :: i < j < |rows| ==> rows[j].time < rows[i].time)
  }

  /** The row that answers a point-in-time query: at or before the moment, latest of those, ledgered last on ties. */
  lemma AsOfMeaning(rows: seq<Row>, requested: int)
    ensures RowsAsOf(rows, requested).None? <==> forall row :: row in rows ==> row.time > requested
    ensures RowsAsOf(rows, requested).Some? ==>
      exists i :: 0 <= i < |Filter(rows, AtOrBefore(requested))|
                  && Filter(rows, AtOrBefore(requested))[i] == RowsAsOf(rows, requested).value
                  && IsLastMaximum(Filter(rows, AtOrBefore(requested)), i)
  {
    var eligible := Filter(rows, AtOrBefore(requested));
    if eligible == [] {
      forall row | row in rows ensures row.time > requested {
        assert row in eligible <==> row.time <= requested;
      }
    } else {
      assert eligible[0] in rows && eligible[0].time <= requested by { assert eligible[0] in eligible; }
      LatestIsLastMaximum(eligible);
    }
  }
}
