/** Point-in-time answers over the life of a ledger (assessment.py). */
module SnapshotHistory {
  import opened Outcomes
  import opened Orders
  import opened SnapshotLedger
  import opened SnapshotReads
  import opened SnapshotWriters

  /** `later` continues the ledger of `lake` and still has the files that its entries name. */
  ghost predicate Continues(lake: Lake, later: Lake)
  {
    && lake.entries <= later.entries
    && forall name :: name in LedgerNames(lake) && name in lake.files ==> name in later.files && later.files[name] == lake.files[name]
  }

  lemma RowsOfSound(env: Env, lake: Lake)
    requires Sound(env, lake)
    ensures ChainReport(env, lake, None).rows == Map(Indices(|lake.entries|), RowAt(env, lake))
  {
    var n := |lake.entries|;
    ScanRows(env, lake, n, Selection(env, lake, None));
    FilterAll(Indices(n), Among(Selection(env, lake, None)));
  }

  lemma RowStays(env: Env, lake: Lake, later: Lake, i: nat)
    requires Sound(env, lake) && Continues(lake, later) && i < |lake.entries|
    ensures RowAt(env, later)(i) == RowAt(env, lake)(i)
  {
    assert SoundEntry(env, lake, i);
    assert lake.entries[i] in lake.entries && later.entries[i] == lake.entries[i];
  }

  /** The rows of a continued ledger are the old ones and those of the added entries. */
  lemma ContinuedRows(env: Env, lake: Lake, later: Lake)
    requires Sound(env, lake) && Sound(env, later) && Continues(lake, later)
    ensures |ChainReport(env, lake, None).rows| == |lake.entries| <= |ChainReport(env, later, None).rows| == |later.entries|
    ensures ChainReport(env, later, None).rows[..|lake.entries|] == ChainReport(env, lake, None).rows
    ensures forall k :: |lake.entries| <= k < |later.entries| ==> ChainReport(env, later, None).rows[k] == RowAt(env, later)(k)
  {
    RowsOfSound(env, lake);
    RowsOfSound(env, later);
    forall i: nat | i < |lake.entries| ensures ChainReport(env, later, None).rows[i] == ChainReport(env, lake, None).rows[i] {
      RowStays(env, lake, later, i);
    }
  }

  /** Every entry that `later` adds is dated after the moment asked for. */
  ghost predicate AddedAfter(env: Env, lake: Lake, later: Lake, requested: int)
  {
    forall k :: |lake.entries| <= k < |later.entries| ==>
      StampOf(env, later.entries[k]).Some? && StampOf(env, later.entries[k]).value > requested
  }

  lemma AnswerSurvives(env: Env, lake: Lake, later: Lake, requested: int)
    requires Sound(env, lake) && Sound(env, later) && Continues(lake, later) && AddedAfter(env, lake, later, requested)
    ensures RowsAsOf(ChainReport(env, later, None).rows, requested) == RowsAsOf(ChainReport(env, lake, None).rows, requested)
  {
    ContinuedRows(env, lake, later);
    var known, all := ChainReport(env, lake, None).rows, ChainReport(env, later, None).rows;
    var added := all[|known|..];
    assert all == known + added;
    forall row | row in added ensures row.time > requested {
      var k :| 0 <= k < |added| && added[k] == row;
      assert row == RowAt(env, later)(|known| + k);
    }
    LaterRowsDoNotMatter(known, added, requested);
  }

  /** Committing a later-dated snapshot never changes an earlier answer. */
  lemma CommitKeepsAnswers(env: Env, lake: Lake, name: string, stamp: string, content: string, requested: int)
    requires Sound(env, lake) && NoOrphans(lake) && SafeName(name) && name !in lake.files
    requires env.parse(stamp).Some? && env.parse(stamp).value > requested
    ensures ChainReport(env, Committed(env, lake, name, stamp, content), None).Ok()
    ensures RowsAsOf(ChainReport(env, Committed(env, lake, name, stamp, content), None).rows, requested)
         == RowsAsOf(ChainReport(env, lake, None).rows, requested)
  {
    var after := Committed(env, lake, name, stamp, content);
    CommitExtendsHistory(env, lake, name, stamp, content);
    VerifierAcceptsIff(env, after, {}, false);
    VerdictIgnoresLimit(env, after, None);
    AnswerSurvives(env, lake, after, requested);
  }

  // --------------------------------------------------------------- whole runs

  lemma StepContinues(env: Env, s: System, step: Step, s': System)
    requires Inv(env, s) && Next(env, s, step, s')
    ensures Continues(s.lake, s'.lake)
  {
  }

  lemma ContinuesTransitive(a: Lake, b: Lake, c: Lake)
    requires Continues(a, b) && Continues(b, c)
    ensures Continues(a, c)
  {
    forall name | name in LedgerNames(a) && name in a.files ensures name in c.files && c.files[name] == a.files[name] {
      var entry :| entry in a.entries && entry.Entry? && entry.snapshot == Some(name);
      assert entry in b.entries && name in LedgerNames(b);
    }
  }

  lemma {:induction false} RunContinues(env: Env, states: seq<System>, steps: seq<Step>, i: nat, j: nat)
    requires Run(env, states, steps) && i <= j < |states|
    ensures Continues(states[i].lake, states[j].lake)
  {
    if i < j {
      RunContinues(env, states, steps, i, j - 1);
      LedgerNeverForks(env, states, steps, j - 1);
      StepContinues(env, states[j - 1], steps[j - 1], states[j]);
      ContinuesTransitive(states[i].lake, states[j - 1].lake, states[j].lake);
    }
  }

  /** In every run of writers, crashes and recoveries, an answer stays what it was for as long as only later-dated snapshots are added. */
  lemma AsOfIsStable(env: Env, states: seq<System>, steps: seq<Step>, i: nat, j: nat, requested: int)
    requires Run(env, states, steps) && i <= j < |states|
    requires AddedAfter(env, states[i].lake, states[j].lake, requested)
    ensures RowsAsOf(ChainReport(env, states[j].lake, None).rows, requested)
         == RowsAsOf(ChainReport(env, states[i].lake, None).rows, requested)
  {
    LedgerNeverForks(env, states, steps, i);
    LedgerNeverForks(env, states, steps, j);
    RunContinues(env, states, steps, i, j);
    AnswerSurvives(env, states[i].lake, states[j].lake, requested);
  }
}
