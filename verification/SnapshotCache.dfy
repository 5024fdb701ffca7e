/** The LRU memory of snapshot bytes that already passed verification (assessment.py). */
module SnapshotCache {
  import opened Outcomes
  import opened SnapshotLedger

  datatype CacheKey = CacheKey(bytes: Digest, recorded: HashField, previous: HashField, stamp: string)

  function KeyFor(env: Env, raw: Raw, entry: Record): CacheKey
    requires ValidMetadata(env, entry)
  {
    CacheKey(env.sha256(raw), entry.hash, entry.prev, entry.evaluatedAt.value)
  }

  /** What the caller gets: the payload when asked for, nothing otherwise, or the error. */
  function Answer(verified: Result<Payload, VerifyError>, includePayload: bool): Result<Option<Payload>, VerifyError>
  {
    match verified
    case Ok(payload) => Ok(if includePayload then Some(payload) else None)
    case Err(e) => Err(e)
  }

  function Without(keys: seq<CacheKey>, key: CacheKey): (r: seq<CacheKey>)
    ensures |r| <= |keys|
    ensures forall k :: k in r <==> k in keys && k != key
  {
    if keys == [] then []
    else if keys[0] == key then Without(keys[1..], key)
    else [keys[0]] + Without(keys[1..], key)
  }

  /** `OrderedDict` order after inserting `key` or moving it to the end. */
  function MovedToEnd(keys: seq<CacheKey>, key: CacheKey): seq<CacheKey> { Without(keys, key) + [key] }

  function Trimmed(keys: seq<CacheKey>, limit: nat): seq<CacheKey>
  {
    if |keys| <= limit then keys else keys[|keys| - limit..]
  }

  /** One call of `_verified_snapshot_payload`: its answer and the cache it leaves. */
  function CachedCall(env: Env, limit: nat, keys: seq<CacheKey>, raw: Raw, entry: Record, includePayload: bool)
    : (Result<Option<Payload>, VerifyError>, seq<CacheKey>)
  {
    if !ValidMetadata(env, entry) then (Err(InvalidMetadata), keys)
    else
      var key := KeyFor(env, raw, entry);
      if key in keys then
        // A hit decodes the bytes without verifying them.
        (if !includePayload then Ok(None) else if raw.Document? then Ok(Some(raw.payload)) else Err(InvalidDocument),
         MovedToEnd(keys, key))
      else
        var verified := Verify(env, raw, entry);
        (Answer(verified, includePayload),
         if verified.Ok? then Trimmed(MovedToEnd(keys, key), limit) else keys)
  }

  class VerifiedBytes {
    const env: Env
    const limit: nat
    var keys: seq<CacheKey>

    constructor (env: Env, limit: nat)
      ensures this.env == env && this.limit == limit && keys == []
    {
      this.env, this.limit := env, limit;
      keys := [];
    }

    method VerifiedPayload(raw: Raw, entry: Record, includePayload: bool)
      returns (answer: Result<Option<Payload>, VerifyError>)
      modifies this
      ensures (answer, keys) == CachedCall(env, limit, old(keys), raw, entry, includePayload)
    {
      if !ValidMetadata(env, entry) { return Err(InvalidMetadata); }
      var key := KeyFor(env, raw, entry);
      if key in keys {
        keys := MovedToEnd(keys, key);
        return if !includePayload then Ok(None) else if raw.Document? then Ok(Some(raw.payload)) else Err(InvalidDocument);
      }
      var verified := Verify(env, raw, entry);
      if verified.Ok? {
        keys := MovedToEnd(keys, key);
        ghost var all := keys;
        while |keys| > limit
          invariant |keys| <= |all| && keys == all[|all| - |keys|..]
          invariant |keys| >= limit || keys == all
          decreases |keys|
        {
          keys := keys[1..];
        }
      }
      answer := Answer(verified, includePayload);
    }
  }

  // ------------------------------------------------------------- transparency

  /** Bytes that verify and bytes that do not, for the same entry, never share a digest. */
  ghost predicate NoHarmfulCollision(env: Env)
  {
    forall raw, raw', entry :: env.sha256(raw) == env.sha256(raw') && Verify(env, raw, entry).Ok? ==> Verify(env, raw', entry).Ok?
  }

  /** Every remembered key came from bytes that verified. */
  ghost predicate Earned(env: Env, keys: seq<CacheKey>)
  {
    forall key :: key in keys ==>
      exists raw, entry :: Verify(env, raw, entry).Ok? && KeyFor(env, raw, entry) == key
  }

  datatype Call = Call(raw: Raw, entry: Record, includePayload: bool)

  /** The cache after a sequence of calls on whatever bytes the files held at each call. */
  function After(env: Env, limit: nat, calls: seq<Call>): seq<CacheKey>
  {
    if calls == [] then []
    else
      var n := |calls| - 1;
      CachedCall(env, limit, After(env, limit, calls[..n]), calls[n].raw, calls[n].entry, calls[n].includePayload).1
  }

  /** Every answer after every call sequence is the answer without a cache. */
  ghost predicate Transparent(env: Env, limit: nat)
  {
    forall calls, raw, entry, includePayload ::
      CachedCall(env, limit, After(env, limit, calls), raw, entry, includePayload).0
      == Answer(Verify(env, raw, entry), includePayload)
  }

  lemma {:induction false} AfterIsEarned(env: Env, limit: nat, calls: seq<Call>)
    ensures Earned(env, After(env, limit, calls))
    ensures |After(env, limit, calls)| <= limit
  {
    if calls != [] {
      var n := |calls| - 1;
      var before, call := After(env, limit, calls[..n]), calls[n];
      AfterIsEarned(env, limit, calls[..n]);
      CallKeepsEarned(env, limit, before, call);
    }
  }

  lemma CallKeepsEarned(env: Env, limit: nat, keys: seq<CacheKey>, call: Call)
    requires Earned(env, keys) && |keys| <= limit
    ensures var after := CachedCall(env, limit, keys, call.raw, call.entry, call.includePayload).1;
            Earned(env, after) && |after| <= limit
  {
    var after := CachedCall(env, limit, keys, call.raw, call.entry, call.includePayload).1;
    if ValidMetadata(env, call.entry) {
      var key := KeyFor(env, call.raw, call.entry);
      if key in keys { WithoutShrinks(keys, key); }
      forall k | k in after ensures exists raw, entry :: Verify(env, raw, entry).Ok? && KeyFor(env, raw, entry) == k {
        if k !in keys {
          assert k == key;
          assert Verify(env, call.raw, call.entry).Ok? && KeyFor(env, call.raw, call.entry) == k;
        }
      }
    }
  }

  lemma {:induction false} WithoutShrinks(keys: seq<CacheKey>, key: CacheKey)
    requires key in keys
    ensures |Without(keys, key)| < |keys|
  {
    if keys[0] != key { WithoutShrinks(keys[1..], key); }
  }

  /** What verification reads of an entry is in the cache key. */
  lemma SameKeySameVerdict(env: Env, raw: Raw, entry: Record, entry': Record)
    requires ValidMetadata(env, entry) && ValidMetadata(env, entry')
    requires entry.hash == entry'.hash && entry.prev == entry'.prev && entry.evaluatedAt == entry'.evaluatedAt
    ensures Verify(env, raw, entry) == Verify(env, raw, entry')
  {
  }

  lemma EarnedHitVerifies(env: Env, keys: seq<CacheKey>, raw: Raw, entry: Record)
    requires NoHarmfulCollision(env) && Earned(env, keys)
    requires ValidMetadata(env, entry) && KeyFor(env, raw, entry) in keys
    ensures Verify(env, raw, entry).Ok?
  {
    var raw', entry' :| Verify(env, raw', entry').Ok? && KeyFor(env, raw', entry') == KeyFor(env, raw, entry);
    SameKeySameVerdict(env, raw', entry', entry);
    assert env.sha256(raw') == env.sha256(raw);
  }

  /** The cache never changes an answer, over any calls and file contents, exactly when SHA-256
      does not identify accepted bytes with rejected ones. */
  lemma CacheIsTransparentIff(env: Env, limit: nat)
    requires limit > 0
    ensures Transparent(env, limit) <==> NoHarmfulCollision(env)
  {
    if NoHarmfulCollision(env) {
      forall calls, raw, entry, includePayload
        ensures CachedCall(env, limit, After(env, limit, calls), raw, entry, includePayload).0
                == Answer(Verify(env, raw, entry), includePayload)
      {
        AfterIsEarned(env, limit, calls);
        if ValidMetadata(env, entry) && KeyFor(env, raw, entry) in After(env, limit, calls) {
          EarnedHitVerifies(env, After(env, limit, calls), raw, entry);
        }
      }
    }
    if !NoHarmfulCollision(env) {
      var raw, raw', entry :| env.sha256(raw) == env.sha256(raw') && Verify(env, raw, entry).Ok? && !Verify(env, raw', entry).Ok?;
      CollisionFools(env, limit, raw, raw', entry);
    }
  }

  lemma CollisionFools(env: Env, limit: nat, raw: Raw, raw': Raw, entry: Record)
    requires limit > 0
    requires env.sha256(raw) == env.sha256(raw') && Verify(env, raw, entry).Ok? && !Verify(env, raw', entry).Ok?
    ensures !Transparent(env, limit)
  {
    var calls := [Call(raw, entry, false)];
    assert calls[..0] == [];
    assert After(env, limit, []) == [];
    var key := KeyFor(env, raw, entry);
    assert MovedToEnd([], key) == [key];
    assert After(env, limit, calls) == [key];
    assert CachedCall(env, limit, After(env, limit, calls), raw', entry, false).0 == Ok(None);
    assert Answer(Verify(env, raw', entry), false).Err?;
  }
}
