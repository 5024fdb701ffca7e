/** Which verified bytes the cache remembers: the most recently used ones (assessment.py). */
module CacheRecency {
  import opened Outcomes
  import opened Orders
  import opened SnapshotLedger
  import opened SnapshotCache

  /** The call met bytes that verify, under this key. */
  ghost predicate Uses(env: Env, call: Call, key: CacheKey)
  {
    Verify(env, call.raw, call.entry).Ok? && KeyFor(env, call.raw, call.entry) == key
  }

  /** The keys used after the i-th call. */
  ghost function Since(env: Env, calls: seq<Call>, i: int): set<CacheKey>
  {
    set j | i < j < |calls| && 0 <= j && Verify(env, calls[j].raw, calls[j].entry).Ok? :: KeyFor(env, calls[j].raw, calls[j].entry)
  }

  /** The keys behind `key`. */
  ghost function Behind(keys: seq<CacheKey>, key: CacheKey): set<CacheKey>
  {
    if keys == [] then {} else if keys[0] == key then (set k | k in keys[1..]) else Behind(keys[1..], key)
  }

  ghost predicate LastUse(env: Env, calls: seq<Call>, key: CacheKey, i: int, newer: set<CacheKey>)
  {
    0 <= i < |calls| && Uses(env, calls[i], key) && Since(env, calls, i) == newer
  }

  /** Remembered keys stand in the order of their last use, and a forgotten one has too many newer ones. */
  ghost predicate ByRecency(env: Env, limit: nat, calls: seq<Call>, keys: seq<CacheKey>)
  {
    && Distinct(keys) && |keys| <= limit
    && (forall key :: key in keys ==> exists i :: LastUse(env, calls, key, i, Behind(keys, key)))
    && (forall i, key :: 0 <= i < |calls| && Uses(env, calls[i], key) && key !in keys ==> |Since(env, calls, i)| >= limit)
  }

  lemma {:induction false} BehindWithout(keys: seq<CacheKey>, dropped: CacheKey, key: CacheKey)
    requires key in keys && key != dropped && Distinct(keys)
    ensures Behind(Without(keys, dropped), key) == Behind(keys, key) - {dropped}
  {
    if keys[0] != key {
      assert keys == [keys[0]] + keys[1..];
      BehindWithout(keys[1..], dropped, key);
      assert keys[0] != dropped ==> ([keys[0]] + Without(keys[1..], dropped))[1..] == Without(keys[1..], dropped);
    } else {
      assert ([keys[0]] + Without(keys[1..], dropped))[1..] == Without(keys[1..], dropped);
    }
  }

  lemma {:induction false} BehindAppended(keys: seq<CacheKey>, key: CacheKey, last: CacheKey)
    requires key in keys
    ensures Behind(keys + [last], key) == Behind(keys, key) + {last}
  {
    assert (keys + [last])[1..] == keys[1..] + [last];
    if keys[0] != key { BehindAppended(keys[1..], key, last); }
  }

  lemma {:induction false} BehindLast(keys: seq<CacheKey>, last: CacheKey)
    requires last !in keys
    ensures Behind(keys + [last], last) == {}
  {
    if keys != [] {
      assert (keys + [last])[1..] == keys[1..] + [last];
      BehindLast(keys[1..], last);
    }
  }

  lemma {:induction false} BehindSize(keys: seq<CacheKey>, key: CacheKey)
    requires key in keys && Distinct(keys)
    ensures |Behind(keys, key)| < |keys| && key !in Behind(keys, key)
  {
    if keys[0] != key {
      BehindSize(keys[1..], key);
    } else {
      DistinctSize(keys[1..]);
    }
  }

  lemma {:induction false} WithoutDistinct(keys: seq<CacheKey>, key: CacheKey)
    requires Distinct(keys)
    ensures Distinct(Without(keys, key)) && |Without(keys, key)| == if key in keys then |keys| - 1 else |keys|
  {
    if keys != [] {
      var rest := Without(keys[1..], key);
      WithoutDistinct(keys[1..], key);
      assert keys == [keys[0]] + keys[1..];
      assert keys[0] !in rest;
      if keys[0] != key { assert Without(keys, key) == [keys[0]] + rest; }
    }
  }

  lemma SinceNext(env: Env, calls: seq<Call>, call: Call, i: int)
    requires 0 <= i < |calls|
    ensures Since(env, calls + [call], i)
            == Since(env, calls, i) + if Verify(env, call.raw, call.entry).Ok? then {KeyFor(env, call.raw, call.entry)} else {}
  {
    var all := calls + [call];
    forall k | k in Since(env, all, i)
      ensures k in Since(env, calls, i) + if Verify(env, call.raw, call.entry).Ok? then {KeyFor(env, call.raw, call.entry)} else {}
    {
      var j :| i < j < |all| && 0 <= j && Verify(env, all[j].raw, all[j].entry).Ok? && KeyFor(env, all[j].raw, all[j].entry) == k;
      if j < |calls| { assert all[j] == calls[j]; }
    }
    forall k | k in Since(env, calls, i) ensures k in Since(env, all, i) {
      var j :| i < j < |calls| && 0 <= j && Verify(env, calls[j].raw, calls[j].entry).Ok? && KeyFor(env, calls[j].raw, calls[j].entry) == k;
      assert all[j] == calls[j];
    }
    assert all[|calls|] == call;
  }

  /** The call moves the key of bytes that verify to the end, and leaves the cache alone otherwise. */
  lemma CallMoves(env: Env, limit: nat, keys: seq<CacheKey>, call: Call)
    requires NoHarmfulCollision(env) && Earned(env, keys) && |keys| <= limit && Distinct(keys)
    ensures CachedCall(env, limit, keys, call.raw, call.entry, call.includePayload).1
            == if Verify(env, call.raw, call.entry).Ok? then Trimmed(MovedToEnd(keys, KeyFor(env, call.raw, call.entry)), limit) else keys
  {
    if ValidMetadata(env, call.entry) && KeyFor(env, call.raw, call.entry) in keys {
      EarnedHitVerifies(env, keys, call.raw, call.entry);
      WithoutDistinct(keys, KeyFor(env, call.raw, call.entry));
    }
  }

  /** Moving a key to the end puts it behind all others. */
  lemma MovedBehind(keys: seq<CacheKey>, key: CacheKey)
    requires Distinct(keys)
    ensures var moved := MovedToEnd(keys, key);
            && Distinct(moved) && (forall k :: k in moved <==> k in keys || k == key) && Behind(moved, key) == {}
            && |moved| == (if key in keys then |keys| else |keys| + 1)
            && (forall k :: k in keys && k != key ==> Behind(moved, k) == Behind(keys, k) + {key})
  {
    var others := Without(keys, key);
    WithoutDistinct(keys, key);
    BehindLast(others, key);
    forall k | k in keys && k != key ensures Behind(others + [key], k) == Behind(keys, k) + {key} {
      BehindWithout(keys, key, k);
      BehindAppended(others, k, key);
    }
  }

  /** A full cache then drops its front, and nothing changes behind the other keys. */
  lemma TrimmedBehind(keys: seq<CacheKey>, key: CacheKey, limit: nat)
    requires Distinct(keys) && |keys| <= limit && limit > 0
    ensures var moved, after := MovedToEnd(keys, key), Trimmed(MovedToEnd(keys, key), limit);
            && Distinct(after) && |after| <= limit && key in after
            && (forall k :: k in after ==> k in moved && Behind(after, k) == Behind(moved, k))
            && (forall k :: k in keys && k !in after ==> key !in keys && |keys| == limit && k == keys[0])
  {
    var moved := MovedToEnd(keys, key);
    MovedBehind(keys, key);
    if |moved| > limit {
      WithoutNone(keys, key);
      assert Trimmed(moved, limit) == moved[1..];
      assert moved == [keys[0]] + moved[1..];
      assert moved[1..][|moved| - 2] == key;
    } else {
      assert moved[|moved| - 1] == key;
    }
  }

  lemma {:induction false} WithoutNone(keys: seq<CacheKey>, key: CacheKey)
    requires key !in keys
    ensures Without(keys, key) == keys
  {
    if keys != [] { WithoutNone(keys[1..], key); }
  }

  lemma MissKeepsRecency(env: Env, limit: nat, calls: seq<Call>, keys: seq<CacheKey>, call: Call)
    requires ByRecency(env, limit, calls, keys) && Verify(env, call.raw, call.entry).Err?
    ensures ByRecency(env, limit, calls + [call], keys)
  {
    forall key | key in keys ensures exists i :: LastUse(env, calls + [call], key, i, Behind(keys, key)) {
      var i :| LastUse(env, calls, key, i, Behind(keys, key));
      SinceNext(env, calls, call, i);
      assert LastUse(env, calls + [call], key, i, Behind(keys, key));
    }
    forall i, key | 0 <= i < |calls + [call]| && Uses(env, (calls + [call])[i], key) && key !in keys
      ensures |Since(env, calls + [call], i)| >= limit
    {
      SinceNext(env, calls, call, i);
      assert Uses(env, calls[i], key);
    }
  }

  lemma UseKeepsRecency(env: Env, limit: nat, calls: seq<Call>, keys: seq<CacheKey>, call: Call)
    requires ByRecency(env, limit, calls, keys) && limit > 0 && Verify(env, call.raw, call.entry).Ok?
    ensures ByRecency(env, limit, calls + [call], Trimmed(MovedToEnd(keys, KeyFor(env, call.raw, call.entry)), limit))
  {
    var used := KeyFor(env, call.raw, call.entry);
    var after := Trimmed(MovedToEnd(keys, used), limit);
    var all := calls + [call];
    MovedBehind(keys, used);
    TrimmedBehind(keys, used, limit);
    forall key | key in after ensures exists i :: LastUse(env, all, key, i, Behind(after, key)) {
      if key == used {
        assert Since(env, all, |calls|) == {};
        assert LastUse(env, all, key, |calls|, {});
      } else {
        var i :| LastUse(env, calls, key, i, Behind(keys, key));
        SinceNext(env, calls, call, i);
        assert LastUse(env, all, key, i, Behind(after, key));
      }
    }
    forall i, key | 0 <= i < |all| && Uses(env, all[i], key) && key !in after ensures |Since(env, all, i)| >= limit {
      assert i < |calls|;
      SinceNext(env, calls, call, i);
      if key in keys {
        DroppedIsOld(env, limit, calls, keys, used, i, key);
      } else {
        SubsetSize(Since(env, calls, i), Since(env, all, i));
      }
    }
  }

  /** The key that a full cache drops has been followed by as many others as the cache holds. */
  lemma DroppedIsOld(env: Env, limit: nat, calls: seq<Call>, keys: seq<CacheKey>, used: CacheKey, i: int, key: CacheKey)
    requires ByRecency(env, limit, calls, keys) && 0 <= i < |calls| && Uses(env, calls[i], key)
    requires key in keys && key == keys[0] && |keys| == limit && used !in keys
    ensures |Since(env, calls, i) + {used}| >= limit
  {
    var newer := set k | k in keys[1..];
    var last :| LastUse(env, calls, key, last, Behind(keys, key));
    DistinctSize(keys[1..]);
    BehindSize(keys, key);
    assert keys == [keys[0]] + keys[1..];
    assert used !in newer && |newer + {used}| == limit;
    LaterUse(env, calls, key, i, last);
    SinceShrinks(env, calls, i, last);
    SubsetSize(newer + {used}, Since(env, calls, i) + {used});
  }

  lemma LaterUse(env: Env, calls: seq<Call>, key: CacheKey, i: int, earlier: int)
    requires 0 <= i < |calls| && Uses(env, calls[i], key)
    ensures earlier < i ==> key in Since(env, calls, earlier)
  {
  }

  lemma SinceShrinks(env: Env, calls: seq<Call>, i: int, j: int)
    requires i <= j
    ensures Since(env, calls, j) <= Since(env, calls, i)
  {
  }

  lemma {:induction false} AfterByRecency(env: Env, limit: nat, calls: seq<Call>)
    requires limit > 0 && NoHarmfulCollision(env)
    ensures ByRecency(env, limit, calls, After(env, limit, calls))
  {
    if calls != [] {
      var n := |calls| - 1;
      var before, call := After(env, limit, calls[..n]), calls[n];
      AfterByRecency(env, limit, calls[..n]);
      AfterIsEarned(env, limit, calls[..n]);
      CallMoves(env, limit, before, call);
      assert calls == calls[..n] + [call];
      if Verify(env, call.raw, call.entry).Ok? {
        UseKeepsRecency(env, limit, calls[..n], before, call);
      } else {
        MissKeepsRecency(env, limit, calls[..n], before, call);
      }
    }
  }

  /** The cache is least recently used: it remembers a key exactly when fewer than `limit` keys have been used since some use of it. */
  lemma RemembersMostRecent(env: Env, limit: nat, calls: seq<Call>, key: CacheKey)
    requires limit > 0 && NoHarmfulCollision(env)
    ensures key in After(env, limit, calls) <==>
            exists i :: 0 <= i < |calls| && Uses(env, calls[i], key) && |Since(env, calls, i)| < limit
  {
    var keys := After(env, limit, calls);
    AfterByRecency(env, limit, calls);
    if key in keys {
      var i :| LastUse(env, calls, key, i, Behind(keys, key));
      BehindSize(keys, key);
      assert Uses(env, calls[i], key) && |Since(env, calls, i)| < limit;
    }
  }
}
