/** The hash-linked snapshot ledger: files, entries, verification (assessment.py). */
module SnapshotLedger {
  import opened Outcomes

  type Digest = int

  /** A member that should hold a 64-character digest. */
  datatype HashField = Absent | Hex(digest: Digest) | Malformed(text: string)

  /** What `_assessment_hash` covers: every member of the payload but the hash itself. */
  datatype Body = Body(prev: HashField, evaluatedAt: string, content: string)

  datatype Payload = Payload(body: Body, assessmentHash: HashField)

  /** File bytes: a JSON object in some layout, or something else. */
  datatype Raw = Document(payload: Payload, layout: int) | NotAnObject(bytes: int)

  /** A directory member: a regular file, or a link or directory. */
  datatype Node = File(raw: Raw) | Unsafe

  datatype Record = NotADict | Entry(evaluatedAt: Option<string>, snapshot: Option<string>, prev: HashField, hash: HashField)

  /** The hash functions, and how timestamps parse. */
  datatype Env = Env(hash: Body -> Digest, sha256: Raw -> Digest, parse: string -> Option<int>)

  datatype Lake = Lake(entries: seq<Record>, files: map<string, Node>)

  datatype VerifyError = InvalidMetadata | InvalidDocument | ContentMismatch

  /** Ledger members whose shape `_verified_snapshot_payload` accepts. */
  predicate ValidMetadata(env: Env, entry: Record)
  {
    && entry.Entry? && entry.hash.Hex? && !entry.prev.Malformed?
    && entry.evaluatedAt.Some? && env.parse(entry.evaluatedAt.value).Some?
  }

  /** `_verified_snapshot_payload` without its cache. */
  function Verify(env: Env, raw: Raw, entry: Record): Result<Payload, VerifyError>
  {
    if !ValidMetadata(env, entry) then Err(InvalidMetadata)
    else if raw.NotAnObject? then Err(InvalidDocument)
    else
      var payload := raw.payload;
      if Hex(env.hash(payload.body)) != entry.hash || payload.assessmentHash != entry.hash then Err(ContentMismatch)
      else if payload.body.prev != entry.prev then Err(ContentMismatch)
      else if payload.body.evaluatedAt != entry.evaluatedAt.value then Err(ContentMismatch)
      else Ok(payload)
  }

  // ------------------------------------------------------------ chain verifier

  predicate SafeChar(c: char)
  {
    'A' <= c <= 'Z' || 'a' <= c <= 'z' || '0' <= c <= '9' || c in "._+=,@:-"
  }

  predicate JsonName(name: string) { |name| >= 5 && name[|name| - 5..] == ".json" }

  predicate SafeName(name: string)
  {
    JsonName(name) && name !in {".", ".."} && forall i :: 0 <= i < |name| ==> SafeChar(name[i])
  }

  datatype Issue =
    | InvalidRecord(index: nat) | BreaksChain(index: nat) | InvalidName(index: nat) | MissingFile(index: nat)
    | Mismatch(index: nat) | Unreadable(index: nat) | Unledgered | InvalidTimestamp

  datatype Row = Row(time: int, payload: Payload, name: string)

  datatype Scan = Scan(issues: seq<Issue>, rows: seq<Row>, expected: HashField, names: set<string>)

  /** One iteration of the verification loop. */
  function ScanStep(env: Env, files: map<string, Node>, scan: Scan, index: nat, entry: Record, selected: bool): Scan
  {
    if entry.NotADict? then scan.(issues := scan.issues + [InvalidRecord(index)])
    else
      var issues := scan.issues + if entry.prev != scan.expected then [BreaksChain(index)] else [];
      if entry.snapshot.None? || !SafeName(entry.snapshot.value) || entry.snapshot.value in scan.names then
        scan.(issues := issues + [InvalidName(index)])
      else
        var name := entry.snapshot.value;
        var next := scan.(issues := issues, names := scan.names + {name}, expected := entry.hash);
        if name !in files || files[name].Unsafe? then next.(issues := issues + [MissingFile(index)])
        else
          match Verify(env, files[name].raw, entry)
          case Ok(payload) =>
            if selected then next.(rows := scan.rows + [Row(env.parse(payload.body.evaluatedAt).value, payload, name)]) else next
          case Err(ContentMismatch) => next.(issues := issues + [Mismatch(index)])
          case Err(_) => next.(issues := issues + [Unreadable(index)])
  }

  function ScanAll(env: Env, lake: Lake, n: nat, selected: set<nat>): Scan
    requires n <= |lake.entries|
  {
    if n == 0 then Scan([], [], Absent, {})
    else ScanStep(env, lake.files, ScanAll(env, lake, n - 1, selected), n - 1, lake.entries[n - 1], (n - 1) in selected)
  }

  predicate Unledgereds(lake: Lake, names: set<string>)
  {
    exists name :: name in lake.files && JsonName(name) && name !in names
  }

  datatype Report = Report(rows: seq<Row>, issues: seq<Issue>, length: nat)
  {
    predicate Ok() { issues == [] }
  }

  /** The verifier's answer for a given selection of entries. */
  function Verified(env: Env, lake: Lake, selected: set<nat>, allowUnledgered: bool): Report
  {
    var scan := ScanAll(env, lake, |lake.entries|, selected);
    Report(scan.rows,
           scan.issues + if !allowUnledgered && Unledgereds(lake, scan.names) then [Unledgered] else [],
           |lake.entries|)
  }

  // -------------------------------------------------- what an accepted ledger is

  function Tip(lake: Lake): HashField
  {
    if lake.entries == [] then Absent
    else if lake.entries[|lake.entries| - 1].NotADict? then Absent
    else lake.entries[|lake.entries| - 1].hash
  }

  /** Entry i links to entry i - 1, names a fresh safe file, and that file says what the entry says. */
  ghost predicate SoundEntry(env: Env, lake: Lake, i: nat)
    requires i < |lake.entries|
  {
    && var entry := lake.entries[i];
    && entry.Entry?
    && entry.prev == (if i == 0 then Absent else if lake.entries[i - 1].Entry? then lake.entries[i - 1].hash else Absent)
    && entry.snapshot.Some? && SafeName(entry.snapshot.value)
    && (forall j :: 0 <= j < i && lake.entries[j].Entry? ==> lake.entries[j].snapshot != entry.snapshot)
    && entry.snapshot.value in lake.files && lake.files[entry.snapshot.value].File?
    && Verify(env, lake.files[entry.snapshot.value].raw, entry).Ok?
  }

  ghost predicate SoundUpTo(env: Env, lake: Lake, n: nat)
    requires n <= |lake.entries|
  {
    forall i :: 0 <= i < n ==> SoundEntry(env, lake, i)
  }

  function LedgerNames(lake: Lake): set<string>
  {
    set entry | entry in lake.entries && entry.Entry? && entry.snapshot.Some? :: entry.snapshot.value
  }

  ghost predicate Sound(env: Env, lake: Lake)
  {
    SoundUpTo(env, lake, |lake.entries|)
  }

  ghost predicate NoOrphans(lake: Lake)
  {
    forall name :: name in lake.files && JsonName(name) ==> name in LedgerNames(lake)
  }

  /** The payload that the i-th entry's file holds. */
  function PayloadAt(lake: Lake, i: nat): Option<Payload>
    requires i < |lake.entries|
  {
    var entry := lake.entries[i];
    if entry.Entry? && entry.snapshot.Some? && entry.snapshot.value in lake.files
       && lake.files[entry.snapshot.value].File? && lake.files[entry.snapshot.value].raw.Document?
    then Some(lake.files[entry.snapshot.value].raw.payload) else None
  }

  function NamesUpTo(lake: Lake, n: nat): set<string>
    requires n <= |lake.entries|
  {
    set i | 0 <= i < n && lake.entries[i].Entry? && lake.entries[i].snapshot.Some? :: lake.entries[i].snapshot.value
  }

  lemma NamesUpToAll(lake: Lake)
    ensures NamesUpTo(lake, |lake.entries|) == LedgerNames(lake)
  {
    forall name | name in LedgerNames(lake) ensures name in NamesUpTo(lake, |lake.entries|) {
      var entry :| entry in lake.entries && entry.Entry? && entry.snapshot == Some(name);
      var i :| 0 <= i < |lake.entries| && lake.entries[i] == entry;
    }
  }

  /** The loop's verdict after n entries, whatever was selected. */
  lemma {:induction false} ScanVerdict(env: Env, lake: Lake, n: nat, selected: set<nat>)
    requires n <= |lake.entries|
    ensures ScanAll(env, lake, n, selected).issues == [] <==> SoundUpTo(env, lake, n)
    ensures SoundUpTo(env, lake, n) ==>
              && ScanAll(env, lake, n, selected).names == NamesUpTo(lake, n)
              && ScanAll(env, lake, n, selected).expected == (if n == 0 then Absent else lake.entries[n - 1].hash)
  {
    if n > 0 {
      var m := n - 1;
      ScanVerdict(env, lake, m, selected);
      var scan := ScanAll(env, lake, m, selected);
      ScanStepVerdict(env, lake, scan, m, m in selected);
      if SoundUpTo(env, lake, n) {
        assert SoundEntry(env, lake, m);
        assert NamesUpTo(lake, n) == NamesUpTo(lake, m) + {lake.entries[m].snapshot.value};
      }
    }
  }

  lemma ScanStepVerdict(env: Env, lake: Lake, scan: Scan, m: nat, selected: bool)
    requires m < |lake.entries|
    requires scan.issues == [] ==> scan.names == NamesUpTo(lake, m)
    requires scan.issues == [] ==> scan.expected == if m == 0 then Absent else if lake.entries[m - 1].Entry? then lake.entries[m - 1].hash else Absent
    requires scan.issues == [] ==> SoundUpTo(env, lake, m)
    ensures ScanStep(env, lake.files, scan, m, lake.entries[m], selected).issues == []
            <==> scan.issues == [] && SoundEntry(env, lake, m)
  {
    if scan.issues == [] && lake.entries[m].Entry? && lake.entries[m].snapshot.Some? {
      var name := lake.entries[m].snapshot.value;
      assert name in scan.names <==> exists j :: 0 <= j < m && lake.entries[j].Entry? && lake.entries[j].snapshot == Some(name);
    }
  }

  /** The verifier accepts exactly the ledgers that are linked, complete and unaltered; the selection plays no part. */
  lemma VerifierAcceptsIff(env: Env, lake: Lake, selected: set<nat>, allowUnledgered: bool)
    ensures Verified(env, lake, selected, allowUnledgered).Ok()
            <==> Sound(env, lake) && (allowUnledgered || NoOrphans(lake))
    ensures Verified(env, lake, selected, allowUnledgered).length == |lake.entries|
  {
    ScanVerdict(env, lake, |lake.entries|, selected);
    NamesUpToAll(lake);
  }

  // ------------------------------------------------- acceptance on the members

  /** A letter, a digit or one of + , - . : = @ _ by its code. */
  ghost predicate PlainCode(code: int)
  {
    43 <= code <= 46 || 48 <= code <= 58 || code == 61 || 64 <= code <= 90 || code == 95 || 97 <= code <= 122
  }

  ghost predicate EndsInJson(name: string)
  {
    exists stem :: name == stem + ['.', 'j', 's', 'o', 'n']
  }

  lemma JsonNameMeaning(name: string)
    ensures JsonName(name) <==> EndsInJson(name)
  {
    if JsonName(name) {
      assert name == name[..|name| - 5] + ['.', 'j', 's', 'o', 'n'];
    }
    if stem :| name == stem + ['.', 'j', 's', 'o', 'n'] {
      assert name[|name| - 5..] == ['.', 'j', 's', 'o', 'n'];
    }
  }

  lemma SafeNameMeaning(name: string)
    ensures SafeName(name) <==> EndsInJson(name) && forall i :: 0 <= i < |name| ==> PlainCode(name[i] as int)
  {
    JsonNameMeaning(name);
    forall c: char ensures SafeChar(c) <==> PlainCode(c as int) {
      SafeCharMeaning(c);
    }
  }

  lemma SafeCharMeaning(c: char)
    ensures SafeChar(c) <==> PlainCode(c as int)
  {
    var others := "._+=,@:-";
    assert others[0] == '.' && others[1] == '_' && others[2] == '+' && others[3] == '=';
    assert others[4] == ',' && others[5] == '@' && others[6] == ':' && others[7] == '-';
  }

  /** The entry links to `prev`, and names a file whose payload hashes to what both say, with the same predecessor and time. */
  ghost predicate Vouches(env: Env, files: map<string, Node>, entry: Record, prev: HashField)
  {
    && entry.Entry? && entry.prev == prev && entry.snapshot.Some? && entry.evaluatedAt.Some?
    && entry.snapshot.value in files && files[entry.snapshot.value].File? && files[entry.snapshot.value].raw.Document?
    && var payload := files[entry.snapshot.value].raw.payload;
    && payload.body.prev == prev && payload.body.evaluatedAt == entry.evaluatedAt.value
    && env.parse(payload.body.evaluatedAt).Some?
    && entry.hash == payload.assessmentHash == Hex(env.hash(payload.body))
  }

  ghost predicate NameIsPlain(entry: Record)
  {
    entry.Entry? && entry.snapshot.Some? && EndsInJson(entry.snapshot.value)
    && forall k :: 0 <= k < |entry.snapshot.value| ==> PlainCode(entry.snapshot.value[k] as int)
  }

  ghost predicate NamesDiffer(lake: Lake)
  {
    forall i, j :: 0 <= i < j < |lake.entries| && lake.entries[i].Entry? && lake.entries[j].Entry? ==>
      lake.entries[i].snapshot != lake.entries[j].snapshot
  }

  /** The entry vouches for its file and links to the one before it. */
  ghost predicate LinkedAt(env: Env, lake: Lake, i: nat)
    requires i < |lake.entries|
  {
    if i == 0 then Vouches(env, lake.files, lake.entries[0], Absent)
    else lake.entries[i - 1].Entry? && Vouches(env, lake.files, lake.entries[i], lake.entries[i - 1].hash)
  }

  ghost predicate LinkedFromStart(env: Env, lake: Lake)
  {
    forall i: nat :: i < |lake.entries| ==> LinkedAt(env, lake, i)
  }

  lemma SoundOnFields(env: Env, lake: Lake)
    ensures Sound(env, lake) <==>
            LinkedFromStart(env, lake) && NamesDiffer(lake) && forall entry :: entry in lake.entries ==> NameIsPlain(entry)
  {
    if Sound(env, lake) {
      SoundMeansLinked(env, lake);
    }
    if LinkedFromStart(env, lake) && NamesDiffer(lake) && forall entry :: entry in lake.entries ==> NameIsPlain(entry) {
      LinkedMeansSound(env, lake, |lake.entries|);
    }
  }

  lemma SoundMeansLinked(env: Env, lake: Lake)
    requires Sound(env, lake)
    ensures LinkedFromStart(env, lake) && NamesDiffer(lake) && forall entry :: entry in lake.entries ==> NameIsPlain(entry)
  {
    forall i: nat | i < |lake.entries| ensures LinkedAt(env, lake, i) && NameIsPlain(lake.entries[i]) {
      assert SoundEntry(env, lake, i);
      if i > 0 { assert SoundEntry(env, lake, i - 1); }
      SafeNameMeaning(lake.entries[i].snapshot.value);
    }
    forall i, j | 0 <= i < j < |lake.entries| ensures lake.entries[i].snapshot != lake.entries[j].snapshot {
      assert SoundEntry(env, lake, j);
      assert lake.entries[i].Entry?;
    }
  }

  lemma {:induction false} LinkedMeansSound(env: Env, lake: Lake, n: nat)
    requires LinkedFromStart(env, lake) && NamesDiffer(lake) && forall entry :: entry in lake.entries ==> NameIsPlain(entry)
    requires n <= |lake.entries|
    ensures SoundUpTo(env, lake, n)
  {
    if n > 0 {
      var i: nat := n - 1;
      LinkedMeansSound(env, lake, i);
      assert lake.entries[i] in lake.entries;
      SafeNameMeaning(lake.entries[i].snapshot.value);
      assert LinkedAt(env, lake, i);
      if i > 0 { assert LinkedAt(env, lake, i - 1); }
      assert SoundEntry(env, lake, i);
    }
  }

  /** Acceptance on the members alone: every entry links to the one before it and vouches for its own plainly named file,
      and, unless they are allowed, there are no other JSON files. */
  lemma AcceptedOnFields(env: Env, lake: Lake, selected: set<nat>, allowUnledgered: bool)
    ensures Verified(env, lake, selected, allowUnledgered).Ok() <==>
            && LinkedFromStart(env, lake) && NamesDiffer(lake) && (forall entry :: entry in lake.entries ==> NameIsPlain(entry))
            && (allowUnledgered
                || forall name :: name in lake.files && EndsInJson(name) ==>
                     exists entry :: entry in lake.entries && entry.Entry? && entry.snapshot == Some(name))
  {
    VerifierAcceptsIff(env, lake, selected, allowUnledgered);
    SoundOnFields(env, lake);
    forall name ensures JsonName(name) <==> EndsInJson(name) {
      JsonNameMeaning(name);
    }
    forall name ensures name in LedgerNames(lake) <==> exists entry :: entry in lake.entries && entry.Entry? && entry.snapshot == Some(name) {
    }
  }

  ghost predicate Named(scan: Scan, entry: Record) { NameIsPlain(entry) && entry.snapshot.value !in scan.names }

  ghost predicate HasFile(files: map<string, Node>, entry: Record)
  {
    NameIsPlain(entry) && entry.snapshot.value in files && files[entry.snapshot.value].File?
  }

  /** The entry's own members are well formed, and the file holds an object. */
  ghost predicate Readable(env: Env, files: map<string, Node>, entry: Record)
  {
    && HasFile(files, entry) && files[entry.snapshot.value].raw.Document?
    && entry.hash.Hex? && (entry.prev == Absent || entry.prev.Hex?)
    && entry.evaluatedAt.Some? && env.parse(entry.evaluatedAt.value).Some?
  }

  /** What is wrong with an entry by itself, at most one thing. */
  ghost function OwnIssues(env: Env, files: map<string, Node>, scan: Scan, index: nat, entry: Record): seq<Issue>
  {
    if entry == NotADict then [InvalidRecord(index)]
    else if !Named(scan, entry) then [InvalidName(index)]
    else if !HasFile(files, entry) then [MissingFile(index)]
    else if !Readable(env, files, entry) then [Unreadable(index)]
    else if !Vouches(env, files, entry, entry.prev) then [Mismatch(index)]
    else []
  }

  /** What a reader gets for an entry: its time, the payload of its file, and its name. */
  ghost function RowOf(env: Env, files: map<string, Node>, entry: Record): Row
    requires Readable(env, files, entry)
  {
    Row(env.parse(entry.evaluatedAt.value).value, files[entry.snapshot.value].raw.payload, entry.snapshot.value)
  }

  /** An entry adds a broken link and what is wrong with itself to the report; a well-named one takes its name and is the
      predecessor of the next; a selected one that vouches for its file yields its row. */
  lemma StepMeaning(env: Env, files: map<string, Node>, scan: Scan, index: nat, entry: Record, selected: bool)
    ensures var next := ScanStep(env, files, scan, index, entry, selected);
            && next.issues == scan.issues + (if entry.Entry? && entry.prev != scan.expected then [BreaksChain(index)] else [])
                              + OwnIssues(env, files, scan, index, entry)
            && next.names == scan.names + (if Named(scan, entry) then {entry.snapshot.value} else {})
            && next.expected == (if Named(scan, entry) then entry.hash else scan.expected)
            && next.rows == scan.rows + if selected && Named(scan, entry) && Readable(env, files, entry) && Vouches(env, files, entry, entry.prev)
                                        then [RowOf(env, files, entry)] else []
  {
    if entry.Entry? && entry.snapshot.Some? { SafeNameMeaning(entry.snapshot.value); }
    assert scan.issues + [] == scan.issues && scan.rows + [] == scan.rows;
    if OwnIssues(env, files, scan, index, entry) == [] {
      assert scan.issues + [BreaksChain(index)] + [] == scan.issues + [BreaksChain(index)];
    }
  }

  /** The entry an issue is about. */
  ghost predicate Concerns(issue: Issue, i: nat)
  {
    || issue == InvalidRecord(i) || issue == BreaksChain(i) || issue == InvalidName(i)
    || issue == MissingFile(i) || issue == Mismatch(i) || issue == Unreadable(i)
  }

  lemma {:induction false} IssuesSoFar(env: Env, lake: Lake, n: nat, selected: set<nat>, i: nat, issue: Issue)
    requires n <= |lake.entries| && i < |lake.entries| && i >= 0 && Concerns(issue, i)
    ensures issue in ScanAll(env, lake, n, selected).issues <==> i < n && AddsIssue(env, lake, selected, i, issue)
  {
    if n > 0 {
      var m: nat := n - 1;
      IssuesSoFar(env, lake, m, selected, i, issue);
      OneMoreIssue(env, lake, m, selected, issue);
      if i != m { OwnIssuesConcern(env, lake.files, ScanAll(env, lake, m, selected), m, lake.entries[m], i, issue); }
    }
  }

  lemma OneMoreIssue(env: Env, lake: Lake, m: nat, selected: set<nat>, issue: Issue)
    requires m < |lake.entries|
    ensures issue in ScanAll(env, lake, m + 1, selected).issues
       <==> issue in ScanAll(env, lake, m, selected).issues || AddsIssue(env, lake, selected, m, issue)
  {
    StepMeaning(env, lake.files, ScanAll(env, lake, m, selected), m, lake.entries[m], m in selected);
  }

  lemma OwnIssuesConcern(env: Env, files: map<string, Node>, scan: Scan, m: nat, entry: Record, i: nat, issue: Issue)
    requires Concerns(issue, i) && i != m
    ensures issue !in OwnIssues(env, files, scan, m, entry) && issue != BreaksChain(m)
  {
  }

  /** The issue is a broken link to what stood before the entry, or what is wrong with the entry itself. */
  ghost predicate AddsIssue(env: Env, lake: Lake, selected: set<nat>, i: nat, issue: Issue)
    requires i < |lake.entries|
  {
    var before := ScanAll(env, lake, i, selected);
    || (issue == BreaksChain(i) && lake.entries[i].Entry? && lake.entries[i].prev != before.expected)
    || issue in OwnIssues(env, lake.files, before, i, lake.entries[i])
  }

  /** The report names, under its own position, everything that is wrong with an entry, and nothing else about it. */
  lemma IssuesMeaning(env: Env, lake: Lake, selected: set<nat>, allowUnledgered: bool, i: nat, issue: Issue)
    requires i < |lake.entries| && Concerns(issue, i)
    ensures issue in Verified(env, lake, selected, allowUnledgered).issues <==> AddsIssue(env, lake, selected, i, issue)
  {
    IssuesSoFar(env, lake, |lake.entries|, selected, i, issue);
  }

  // --------------------------------------------------------------- equal tips

  ghost predicate Injective(hash: Body -> Digest)
  {
    forall a, b :: hash(a) == hash(b) ==> a == b
  }

  lemma SoundPayload(env: Env, lake: Lake, i: nat)
    requires Sound(env, lake) && i < |lake.entries|
    ensures lake.entries[i].Entry? && PayloadAt(lake, i).Some?
    ensures lake.entries[i].prev == PayloadAt(lake, i).value.body.prev
    ensures i > 0 ==> lake.entries[i - 1].Entry?
    ensures lake.entries[i].prev == if i == 0 then Absent else lake.entries[i - 1].hash
    ensures lake.entries[i].hash == Hex(env.hash(PayloadAt(lake, i).value.body)) == PayloadAt(lake, i).value.assessmentHash
  {
    assert SoundEntry(env, lake, i);
    if i > 0 { assert SoundEntry(env, lake, i - 1); }
  }

  lemma {:induction false} EqualTipsUpTo(env: Env, a: Lake, b: Lake, n: nat, m: nat)
    requires Injective(env.hash) && Sound(env, a) && Sound(env, b)
    requires 0 < n <= |a.entries| && 0 < m <= |b.entries|
    requires a.entries[n - 1].Entry? && b.entries[m - 1].Entry? && a.entries[n - 1].hash == b.entries[m - 1].hash
    ensures n == m
    ensures forall i :: 0 <= i < n ==> PayloadAt(a, i).Some? && PayloadAt(a, i) == PayloadAt(b, i)
  {
    SoundPayload(env, a, n - 1);
    SoundPayload(env, b, m - 1);
    if n > 1 { SoundPayload(env, a, n - 2); }
    if m > 1 { SoundPayload(env, b, m - 2); }
    if n > 1 && m > 1 {
      EqualTipsUpTo(env, a, b, n - 1, m - 1);
    }
  }

  /** No two entries claim the same predecessor. */
  ghost predicate NoFork(lake: Lake)
  {
    forall k, l :: 0 <= k < l < |lake.entries| && lake.entries[k].Entry? && lake.entries[l].Entry? ==>
      lake.entries[k].prev != lake.entries[l].prev
  }

  lemma {:induction false} PredecessorsDiffer(env: Env, lake: Lake, k: nat, l: nat)
    requires Injective(env.hash) && Sound(env, lake) && k < l < |lake.entries|
    requires lake.entries[k].Entry? && lake.entries[l].Entry?
    ensures lake.entries[k].prev != lake.entries[l].prev
  {
    SoundPayload(env, lake, k);
    SoundPayload(env, lake, l);
    SoundPayload(env, lake, l - 1);
    if k > 0 {
      SoundPayload(env, lake, k - 1);
      PredecessorsDiffer(env, lake, k - 1, l - 1);
    }
  }

  lemma SoundNeverForks(env: Env, lake: Lake)
    requires Injective(env.hash) && Sound(env, lake)
    ensures NoFork(lake)
  {
    forall k, l | 0 <= k < l < |lake.entries| && lake.entries[k].Entry? && lake.entries[l].Entry?
      ensures lake.entries[k].prev != lake.entries[l].prev
    {
      PredecessorsDiffer(env, lake, k, l);
    }
  }

  /** Two accepted lakes whose last entries carry the same hash hold the same payloads, position by position. */
  lemma EqualTipsEqualHistories(env: Env, a: Lake, b: Lake)
    requires Injective(env.hash)
    requires Verified(env, a, {}, false).Ok() && Verified(env, b, {}, false).Ok()
    requires Tip(a) == Tip(b)
    ensures |a.entries| == |b.entries|
    ensures forall i :: 0 <= i < |a.entries| ==> PayloadAt(a, i).Some? && PayloadAt(a, i) == PayloadAt(b, i)
  {
    VerifierAcceptsIff(env, a, {}, false);
    VerifierAcceptsIff(env, b, {}, false);
    if a.entries != [] { SoundPayload(env, a, |a.entries| - 1); }
    if b.entries != [] { SoundPayload(env, b, |b.entries| - 1); }
    if a.entries != [] && b.entries != [] {
      EqualTipsUpTo(env, a, b, |a.entries|, |b.entries|);
    }
  }
}
