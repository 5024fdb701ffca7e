/** Writing snapshots under the chain lock, crashing, and recovering (assessment.py, snapshot_recovery.py). */
module SnapshotWriters {
  import opened Outcomes
  import opened SnapshotLedger
  import opened SnapshotCache

  /** The payload a writer builds on the current tip. */
  function NewPayload(env: Env, tip: HashField, stamp: string, content: string): Payload
  {
    var body := Body(tip, stamp, content);
    Payload(body, Hex(env.hash(body)))
  }

  function EntryFor(payload: Payload, name: string): Record
  {
    Entry(Some(payload.body.evaluatedAt), Some(name), payload.body.prev, payload.assessmentHash)
  }

  function WithFile(lake: Lake, name: string, payload: Payload): Lake
  {
    lake.(files := lake.files[name := File(Document(payload, 0))])
  }

  function WithoutFile(lake: Lake, name: string): Lake { lake.(files := lake.files - {name}) }

  function WithEntry(lake: Lake, payload: Payload, name: string): Lake
  {
    lake.(entries := lake.entries + [EntryFor(payload, name)])
  }

  function Committed(env: Env, lake: Lake, name: string, stamp: string, content: string): Lake
  {
    var payload := NewPayload(env, Tip(lake), stamp, content);
    WithEntry(WithFile(lake, name, payload), payload, name)
  }

  // -------------------------------------------------- what a write does to a lake

  lemma TipOfSound(env: Env, lake: Lake)
    requires Sound(env, lake)
    ensures lake.entries != [] ==> lake.entries[|lake.entries| - 1].Entry?
    ensures !Tip(lake).Malformed?
  {
    if lake.entries != [] { assert SoundEntry(env, lake, |lake.entries| - 1); }
  }

  /** Files outside the ledger do not matter to the entries. */
  lemma SoundDependsOnLedgerFiles(env: Env, a: Lake, b: Lake)
    requires Sound(env, a) && a.entries == b.entries
    requires forall name :: name in LedgerNames(a) && name in a.files ==> name in b.files && b.files[name] == a.files[name]
    ensures Sound(env, b)
  {
    forall i | 0 <= i < |b.entries| ensures SoundEntry(env, b, i) {
      assert SoundEntry(env, a, i);
      assert a.entries[i] in a.entries;
    }
  }

  lemma AppendKeepsSound(env: Env, lake: Lake, payload: Payload, name: string)
    requires Sound(env, lake) && payload.body.prev == Tip(lake) && payload.assessmentHash == Hex(env.hash(payload.body))
    requires env.parse(payload.body.evaluatedAt).Some?
    requires SafeName(name) && name !in LedgerNames(lake)
    requires name in lake.files && lake.files[name] == File(Document(payload, 0))
    ensures Sound(env, WithEntry(lake, payload, name))
    ensures LedgerNames(WithEntry(lake, payload, name)) == LedgerNames(lake) + {name}
  {
    var after := WithEntry(lake, payload, name);
    TipOfSound(env, lake);
    forall i | 0 <= i < |after.entries| ensures SoundEntry(env, after, i) {
      if i < |lake.entries| {
        assert SoundEntry(env, lake, i);
      } else {
        forall j | 0 <= j < i && after.entries[j].Entry? ensures after.entries[j].snapshot != Some(name) {
          assert lake.entries[j] in lake.entries;
        }
      }
    }
    assert forall e :: e in after.entries <==> e in lake.entries || e == EntryFor(payload, name);
  }

  /** A committed write extends the accepted history by exactly its payload. */
  lemma CommitExtendsHistory(env: Env, lake: Lake, name: string, stamp: string, content: string)
    requires Sound(env, lake) && NoOrphans(lake)
    requires env.parse(stamp).Some? && SafeName(name) && name !in lake.files
    ensures var after := Committed(env, lake, name, stamp, content);
            && Verified(env, after, {}, false).Ok()
            && |after.entries| == |lake.entries| + 1
            && PayloadAt(after, |lake.entries|) == Some(NewPayload(env, Tip(lake), stamp, content))
            && forall i :: 0 <= i < |lake.entries| ==> PayloadAt(after, i) == PayloadAt(lake, i)
  {
    var payload := NewPayload(env, Tip(lake), stamp, content);
    var written := WithFile(lake, name, payload);
    var after := WithEntry(written, payload, name);
    NotInLedger(env, lake, name);
    SoundDependsOnLedgerFiles(env, lake, written);
    AppendKeepsSound(env, written, payload, name);
    VerifierAcceptsIff(env, after, {}, false);
    forall i | 0 <= i < |lake.entries| ensures PayloadAt(after, i) == PayloadAt(lake, i) {
      assert SoundEntry(env, lake, i);
      assert lake.entries[i] in lake.entries;
    }
  }

  /** The members of a committed write: the payload names the last entry's hash as its predecessor, carries the stamp and the
      content as given and hashes to what it says; the new entry repeats its members; nothing else in the lake changes. */
  lemma CommitOnFields(env: Env, lake: Lake, name: string, stamp: string, content: string)
    requires Sound(env, lake) && name !in lake.files
    ensures var after, n := Committed(env, lake, name, stamp, content), |lake.entries|;
            && after.entries[..n] == lake.entries && |after.entries| == n + 1 && after.files - {name} == lake.files
            && name in after.files && after.files[name].File? && after.files[name].raw.Document?
            && var payload := after.files[name].raw.payload;
            && payload.body.evaluatedAt == stamp && payload.body.content == content
            && (lake.entries == [] ==> payload.body.prev == Absent)
            && (lake.entries != [] ==> lake.entries[n - 1].Entry? && payload.body.prev == lake.entries[n - 1].hash)
            && payload.assessmentHash == Hex(env.hash(payload.body))
            && after.entries[n] == Entry(Some(stamp), Some(name), payload.body.prev, payload.assessmentHash)
  {
    TipOfSound(env, lake);
    assert Committed(env, lake, name, stamp, content).files - {name} == lake.files;
  }

  lemma NotInLedger(env: Env, lake: Lake, name: string)
    requires Sound(env, lake) && name !in lake.files
    ensures name !in LedgerNames(lake)
  {
    forall entry | entry in lake.entries && entry.Entry? ensures entry.snapshot != Some(name) {
      var i :| 0 <= i < |lake.entries| && lake.entries[i] == entry;
      assert SoundEntry(env, lake, i);
    }
  }

  datatype WriteError = RecoveryPending | IntegrityFailed | UnsafeName | AlreadyExists | OutputFailed

  class SnapshotStore {
    const env: Env
    const cache: VerifiedBytes
    var lake: Lake
    var pending: bool

    constructor (env: Env)
      ensures this.env == env && lake == Lake([], map[]) && !pending && fresh(cache) && cache.env == env && cache.limit == 4096
    {
      this.env := env;
      cache := new VerifiedBytes(env, 4096);
      lake, pending := Lake([], map[]), false;
    }

    /** `_snapshot_chain_rows_unlocked` for a selection of entries, through the cache. */
    method ChainRows(selected: set<nat>, allowUnledgered: bool) returns (report: Report)
      requires cache.env == env && cache.limit > 0 && NoHarmfulCollision(env) && Earned(env, cache.keys)
      modifies cache
      ensures report == Verified(env, lake, selected, allowUnledgered)
      ensures Earned(env, cache.keys)
    {
      var scan := Scan([], [], Absent, {});
      for index := 0 to |lake.entries|
        invariant scan == ScanAll(env, lake, index, selected)
        invariant Earned(env, cache.keys)
      {
        scan := VerifyEntry(scan, index, lake.entries[index], index in selected);
      }
      var orphans := !allowUnledgered && Unledgereds(lake, scan.names);
      report := Report(scan.rows, scan.issues + if orphans then [Unledgered] else [], |lake.entries|);
    }

    method VerifyEntry(scan: Scan, index: nat, entry: Record, selected: bool) returns (next: Scan)
      requires cache.env == env && cache.limit > 0 && NoHarmfulCollision(env) && Earned(env, cache.keys)
      modifies cache
      ensures next == ScanStep(env, lake.files, scan, index, entry, selected)
      ensures Earned(env, cache.keys)
    {
      if entry.NotADict? { return scan.(issues := scan.issues + [InvalidRecord(index)]); }
      var issues := scan.issues;
      if entry.prev != scan.expected { issues := issues + [BreaksChain(index)]; }
      if entry.snapshot.None? || !SafeName(entry.snapshot.value) || entry.snapshot.value in scan.names {
        return scan.(issues := issues + [InvalidName(index)]);
      }
      var name := entry.snapshot.value;
      next := scan.(issues := issues, names := scan.names + {name}, expected := entry.hash);
      if name !in lake.files || lake.files[name].Unsafe? {
        return next.(issues := issues + [MissingFile(index)]);
      }
      var raw := lake.files[name].raw;
      CachedAnswer(env, cache.limit, cache.keys, raw, entry, selected);
      var answer := cache.VerifiedPayload(raw, entry, selected);
      match answer {
        case Ok(payload) =>
          if selected {
            next := next.(rows := scan.rows + [Row(env.parse(payload.value.body.evaluatedAt).value, payload.value, name)]);
          }
        case Err(ContentMismatch) => next := next.(issues := issues + [Mismatch(index)]);
        case Err(_) => next := next.(issues := issues + [Unreadable(index)]);
      }
    }

    /** `write_assessment_snapshot` inside the lock. `external` is a second output outside the snapshot
        directory; `externalFails` says that writing it raises, which removes the stored file again. */
    method WriteSnapshot(name: string, stamp: string, content: string, external: bool, externalFails: bool)
      returns (result: Result<Payload, WriteError>)
      requires cache.env == env && cache.limit > 0 && NoHarmfulCollision(env) && Earned(env, cache.keys)
      requires env.parse(stamp).Some?
      modifies this`lake, cache
      ensures Earned(env, cache.keys)
      ensures result.Ok? <==> && !pending && Verified(env, old(lake), {}, false).Ok()
                              && SafeName(name) && name !in old(lake).files && !(external && externalFails)
      ensures result.Ok? ==> lake == Committed(env, old(lake), name, stamp, content)
                             && result.value == NewPayload(env, Tip(old(lake)), stamp, content)
      ensures result.Err? ==> lake == old(lake)
      ensures result.Err? && pending ==> result.error == RecoveryPending
      ensures result.Err? && !pending && !Verified(env, old(lake), {}, false).Ok() ==> result.error == IntegrityFailed
      ensures result.Err? && result.error == UnsafeName ==> !SafeName(name)
      ensures result.Err? && result.error == AlreadyExists ==> SafeName(name) && name in old(lake).files
      ensures result.Err? && result.error == OutputFailed ==> SafeName(name) && name !in old(lake).files
    {
      if pending { return Err(RecoveryPending); }
      var report := ChainRows({}, false);
      if !report.Ok() { return Err(IntegrityFailed); }
      var prevHash := Tip(lake);
      var payload := NewPayload(env, prevHash, stamp, content);
      if !SafeName(name) { return Err(UnsafeName); }
      if name in lake.files { return Err(AlreadyExists); }
      lake := WithFile(lake, name, payload);
      if external && externalFails {
        lake := WithoutFile(lake, name);
        assert lake.files == old(lake).files;
        return Err(OutputFailed);
      }
      lake := WithEntry(lake, payload, name);
      result := Ok(payload);
    }
  }

  /** With an earned cache and no harmful collision, a call answers as plain verification does. */
  lemma CachedAnswer(env: Env, limit: nat, keys: seq<CacheKey>, raw: Raw, entry: Record, includePayload: bool)
    requires NoHarmfulCollision(env) && Earned(env, keys)
    ensures var (answer, after) := CachedCall(env, limit, keys, raw, entry, includePayload);
            answer == Answer(Verify(env, raw, entry), includePayload) && Earned(env, after)
  {
    var after := CachedCall(env, limit, keys, raw, entry, includePayload).1;
    if ValidMetadata(env, entry) {
      if KeyFor(env, raw, entry) in keys { EarnedHitVerifies(env, keys, raw, entry); }
      forall k | k in after ensures exists r, e :: Verify(env, r, e).Ok? && KeyFor(env, r, e) == k {
        if k !in keys {
          assert Verify(env, raw, entry).Ok? && KeyFor(env, raw, entry) == k;
        }
      }
    }
  }

  // ---------------------------------------------------- interleavings and crashes

  type Process = nat

  /** How far the process that holds the chain lock has come. */
  datatype Phase = Entered | Accepted | Wrote(name: string, payload: Payload) | Recovering

  /** The shared directory, the recovery journal, and the lock. `writes` and `dirty` record the past:
      committed appends, and whether a crash left an unledgered file that no recovery has cleared. */
  datatype System = System(lake: Lake, journal: Option<set<string>>, lock: Option<Process>, phase: Phase,
                           writes: nat, dirty: bool)

  datatype Step =
    | Acquire(p: Process)
    | Check
    | WriteFile(name: string, stamp: string, content: string)
    | UndoFile
    | AppendEntry
    | Release
    | BeginRecovery
    | Quarantine(orphan: string)
    | FinishRecovery
    | Crash

  function Orphans(lake: Lake): set<string>
  {
    set name | name in lake.files && JsonName(name) && name !in LedgerNames(lake)
  }

  ghost predicate Start(s: System) { s == System(Lake([], map[]), None, None, Entered, 0, false) }

  ghost predicate Next(env: Env, s: System, step: Step, s': System)
  {
    if step.Acquire? then s.lock.None? && s' == s.(lock := Some(step.p), phase := Entered)
    else
      && s.lock.Some?
      && match step
         case Acquire(_) => true
         case Check =>
           && s.phase.Entered? && s.journal.None? && Verified(env, s.lake, {}, false).Ok()
           && s' == s.(phase := Accepted)
         case WriteFile(name, stamp, content) =>
           && s.phase.Accepted? && SafeName(name) && name !in s.lake.files && env.parse(stamp).Some?
           && var payload := NewPayload(env, Tip(s.lake), stamp, content);
              s' == s.(lake := WithFile(s.lake, name, payload), phase := Wrote(name, payload))
         case UndoFile =>
           && s.phase.Wrote?
           && s' == s.(lake := WithoutFile(s.lake, s.phase.name), lock := None, phase := Entered)
         case AppendEntry =>
           && s.phase.Wrote?
           && s' == s.(lake := WithEntry(s.lake, s.phase.payload, s.phase.name), phase := Entered, writes := s.writes + 1)
         case Release =>
           && !s.phase.Wrote? && s' == s.(lock := None, phase := Entered)
         case BeginRecovery =>
           && s.phase.Entered? && Verified(env, s.lake, {}, true).Ok()
           && (s.journal.Some? || Orphans(s.lake) != {})
           && s' == s.(journal := if s.journal.Some? then s.journal else Some(Orphans(s.lake)), phase := Recovering)
         case Quarantine(orphan) =>
           && s.phase.Recovering? && s.journal.Some? && orphan in s.journal.value && orphan in s.lake.files
           && s' == s.(lake := WithoutFile(s.lake, orphan))
         case FinishRecovery =>
           && s.phase.Recovering? && s.journal.Some? && (forall name :: name in s.journal.value ==> name !in s.lake.files)
           && s' == s.(journal := None, lock := None, phase := Entered, dirty := false)
         case Crash =>
           s' == s.(lock := None, phase := Entered, dirty := s.dirty || s.phase.Wrote?)
  }

  ghost predicate Inv(env: Env, s: System)
  {
    && Sound(env, s.lake)
    && |s.lake.entries| == s.writes
    && (s.lock.None? ==> s.phase == Entered)
    && (s.phase.Accepted? ==> s.journal.None? && Orphans(s.lake) == {})
    && (s.phase.Wrote? ==>
          && s.journal.None? && Orphans(s.lake) == {s.phase.name}
          && SafeName(s.phase.name) && s.phase.name !in LedgerNames(s.lake)
          && s.lake.files[s.phase.name] == File(Document(s.phase.payload, 0))
          && env.parse(s.phase.payload.body.evaluatedAt).Some?
          && s.phase.payload.body.prev == Tip(s.lake)
          && s.phase.payload.assessmentHash == Hex(env.hash(s.phase.payload.body)))
    && (s.journal.Some? ==> s.journal.value !! LedgerNames(s.lake) && Orphans(s.lake) <= s.journal.value)
    && (s.phase.Recovering? ==> s.journal.Some?)
    && (s.journal.None? && !s.phase.Wrote? ==> (s.dirty <==> Orphans(s.lake) != {}))
    && (s.phase.Wrote? || s.phase.Accepted? ==> !s.dirty)
    && (s.journal.Some? ==> s.dirty)
  }

  lemma NoOrphansIff(lake: Lake)
    ensures NoOrphans(lake) <==> Orphans(lake) == {}
  {
    if NoOrphans(lake) {
      forall name | name in Orphans(lake) ensures false { }
    } else {
      var name :| name in lake.files && JsonName(name) && name !in LedgerNames(lake);
      assert name in Orphans(lake);
    }
  }

  lemma WriteFileKeepsInv(env: Env, s: System, name: string, stamp: string, content: string, s': System)
    requires Inv(env, s) && Next(env, s, WriteFile(name, stamp, content), s')
    ensures Inv(env, s')
  {
    NotInLedger(env, s.lake, name);
    SoundDependsOnLedgerFiles(env, s.lake, s'.lake);
    assert Orphans(s'.lake) == Orphans(s.lake) + {name};
  }

  lemma AppendKeepsInv(env: Env, s: System, s': System)
    requires Inv(env, s) && Next(env, s, AppendEntry, s')
    ensures Inv(env, s')
  {
    AppendKeepsSound(env, s.lake, s.phase.payload, s.phase.name);
    assert Orphans(s'.lake) == Orphans(s.lake) - {s.phase.name};
  }

  lemma DroppingOrphanKeepsSound(env: Env, s: System, name: string)
    requires Inv(env, s) && name !in LedgerNames(s.lake)
    ensures Sound(env, WithoutFile(s.lake, name))
    ensures Orphans(WithoutFile(s.lake, name)) == Orphans(s.lake) - {name}
  {
    SoundDependsOnLedgerFiles(env, s.lake, WithoutFile(s.lake, name));
  }

  lemma BeginKeepsInv(env: Env, s: System, s': System)
    requires Inv(env, s) && Next(env, s, BeginRecovery, s')
    ensures Inv(env, s')
  {
    assert Orphans(s.lake) !! LedgerNames(s.lake);
  }

  lemma NextKeepsInv(env: Env, s: System, step: Step, s': System)
    requires Inv(env, s) && Next(env, s, step, s')
    ensures Inv(env, s')
    ensures s.lake.entries <= s'.lake.entries
  {
    match step
    case Acquire(p) =>
    case Check =>
      VerifierAcceptsIff(env, s.lake, {}, false);
      NoOrphansIff(s.lake);
    case WriteFile(name, stamp, content) => WriteFileKeepsInv(env, s, name, stamp, content, s');
    case UndoFile => DroppingOrphanKeepsSound(env, s, s.phase.name);
    case AppendEntry => AppendKeepsInv(env, s, s');
    case Release =>
    case BeginRecovery => BeginKeepsInv(env, s, s');
    case Quarantine(orphan) => DroppingOrphanKeepsSound(env, s, orphan);
    case FinishRecovery =>
      forall n | n in Orphans(s.lake) ensures false { }
    case Crash =>
  }

  ghost predicate Run(env: Env, states: seq<System>, steps: seq<Step>)
  {
    && |states| == |steps| + 1 && Start(states[0])
    && forall i :: 0 <= i < |steps| ==> Next(env, states[i], steps[i], states[i + 1])
  }

  /** In every interleaving of writers, recoveries and crashes the ledger only grows, every entry links to the
      one before it (so it never forks), every committed file still says what was committed, and the length
      is the number of committed writes. */
  lemma LedgerNeverForks(env: Env, states: seq<System>, steps: seq<Step>, i: nat)
    requires Run(env, states, steps) && i < |states|
    ensures Inv(env, states[i])
    ensures Verified(env, states[i].lake, {}, true).Ok() && |states[i].lake.entries| == states[i].writes
    ensures forall j :: 0 <= j <= i ==> states[j].lake.entries <= states[i].lake.entries
    ensures Injective(env.hash) ==> NoFork(states[i].lake)
  {
    RunKeepsInv(env, states, steps, i);
    RunGrows(env, states, steps, i);
    VerifierAcceptsIff(env, states[i].lake, {}, true);
    if Injective(env.hash) { SoundNeverForks(env, states[i].lake); }
  }

  lemma {:induction false} RunKeepsInv(env: Env, states: seq<System>, steps: seq<Step>, i: nat)
    requires Run(env, states, steps) && i < |states|
    ensures Inv(env, states[i])
  {
    if i == 0 {
      assert Sound(env, states[0].lake);
    } else {
      var k: nat := i - 1;
      RunKeepsInv(env, states, steps, k);
      RunTakesSteps(env, states, steps, k);
      NextKeepsInv(env, states[k], steps[k], states[i]);
    }
  }

  lemma RunTakesSteps(env: Env, states: seq<System>, steps: seq<Step>, k: nat)
    requires Run(env, states, steps) && k < |steps|
    ensures Next(env, states[k], steps[k], states[k + 1])
  {
  }

  lemma {:induction false} RunGrows(env: Env, states: seq<System>, steps: seq<Step>, i: nat)
    requires Run(env, states, steps) && i < |states|
    ensures forall j :: 0 <= j <= i ==> states[j].lake.entries <= states[i].lake.entries
  {
    if i > 0 {
      var k: nat := i - 1;
      RunGrows(env, states, steps, k);
      RunKeepsInv(env, states, steps, k);
      RunTakesSteps(env, states, steps, k);
      NextKeepsInv(env, states[k], steps[k], states[i]);
    }
  }

  /** Outside a write in progress, the full verifier accepts exactly when no crash left a file behind. */
  lemma CleanIffNoCrashMidWrite(env: Env, states: seq<System>, steps: seq<Step>, i: nat)
    requires Run(env, states, steps) && i < |states|
    requires states[i].journal.None? && !states[i].phase.Wrote?
    ensures Verified(env, states[i].lake, {}, false).Ok() <==> !states[i].dirty
    ensures Verified(env, states[i].lake, {}, false).length == states[i].writes
  {
    LedgerNeverForks(env, states, steps, i);
    VerifierAcceptsIff(env, states[i].lake, {}, false);
    NoOrphansIff(states[i].lake);
  }

  /** After a crash between the file and the ledger line every write is refused until a recovery finishes. */
  lemma DirtyRefusesWrites(env: Env, states: seq<System>, steps: seq<Step>, i: nat)
    requires Run(env, states, steps) && i < |steps| && states[i].dirty
    ensures !steps[i].Check? && !steps[i].WriteFile? && !steps[i].AppendEntry?
    ensures states[i + 1].dirty || steps[i].FinishRecovery?
    ensures states[i + 1].lake.entries == states[i].lake.entries
  {
    LedgerNeverForks(env, states, steps, i);
    assert Next(env, states[i], steps[i], states[i + 1]);
    VerifierAcceptsIff(env, states[i].lake, {}, false);
    NoOrphansIff(states[i].lake);
  }

  /** A finished recovery leaves the committed history as it was and a lake the verifier accepts. */
  lemma RecoveryRestoresAcceptance(env: Env, states: seq<System>, steps: seq<Step>, i: nat)
    requires Run(env, states, steps) && i < |steps| && steps[i].FinishRecovery?
    ensures Verified(env, states[i + 1].lake, {}, false).Ok()
    ensures states[i + 1].lake.entries == states[i].lake.entries
  {
    LedgerNeverForks(env, states, steps, i);
    assert Next(env, states[i], steps[i], states[i + 1]);
    LedgerNeverForks(env, states, steps, i + 1);
    VerifierAcceptsIff(env, states[i + 1].lake, {}, false);
    NoOrphansIff(states[i + 1].lake);
  }

  // ------------------------------------------------------- undisturbed processes

  ghost predicate Segment(env: Env, states: seq<System>, steps: seq<Step>)
  {
    |states| == |steps| + 1 && forall i :: 0 <= i < |steps| ==> Next(env, states[i], steps[i], states[i + 1])
  }

  /** A free lake without orphans takes an undisturbed write of a safe new name: the steps commit what `WriteSnapshot` commits. */
  lemma UndisturbedWrite(env: Env, s: System, p: Process, name: string, stamp: string, content: string) returns (states: seq<System>)
    requires Inv(env, s) && s.lock.None? && s.journal.None? && !s.dirty
    requires SafeName(name) && name !in s.lake.files && env.parse(stamp).Some?
    ensures Segment(env, states, [Acquire(p), Check, WriteFile(name, stamp, content), AppendEntry, Release])
    ensures states[0] == s && states[5] == s.(lake := Committed(env, s.lake, name, stamp, content), writes := s.writes + 1)
  {
    var payload := NewPayload(env, Tip(s.lake), stamp, content);
    var s1 := s.(lock := Some(p), phase := Entered);
    var s2 := s1.(phase := Accepted);
    var s3 := s2.(lake := WithFile(s.lake, name, payload), phase := Wrote(name, payload));
    var s4 := s3.(lake := Committed(env, s.lake, name, stamp, content), phase := Entered, writes := s.writes + 1);
    states := [s, s1, s2, s3, s4, s4.(lock := None)];
    NoOrphansIff(s.lake);
    VerifierAcceptsIff(env, s.lake, {}, false);
    assert Next(env, s2, WriteFile(name, stamp, content), s3);
  }

  /** A crash between the file and its ledger line, and a recovery after it, leave the lake that the write began on. */
  lemma CrashAndRecover(env: Env, s: System, p: Process) returns (states: seq<System>)
    requires Inv(env, s) && s.phase.Wrote?
    ensures Segment(env, states, [Crash, Acquire(p), BeginRecovery, Quarantine(s.phase.name), FinishRecovery])
    ensures states[0] == s && states[5] == s.(lake := WithoutFile(s.lake, s.phase.name), lock := None, phase := Entered)
  {
    var name := s.phase.name;
    var s1 := s.(lock := None, phase := Entered, dirty := true);
    var s2 := s1.(lock := Some(p));
    var s3 := s2.(journal := Some({name}), phase := Recovering);
    var s4 := s3.(lake := WithoutFile(s.lake, name));
    states := [s, s1, s2, s3, s4, s4.(journal := None, lock := None, phase := Entered, dirty := false)];
    VerifierAcceptsIff(env, s.lake, {}, true);
    assert name in Orphans(s.lake);
    assert Next(env, s2, BeginRecovery, s3) && Next(env, s3, Quarantine(name), s4);
  }
}
