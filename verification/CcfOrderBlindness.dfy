/** Evaluation does not depend on the order in which evidence arrives (ccf_evaluation.py). */
module CcfOrderBlindness {
  import opened Orders
  import opened ControlVerdicts
  import opened CcfEvaluation
  import Freshness = EvidenceFreshness

  /** One event per (tenant, event id). */
  ghost predicate DistinctIds(events: seq<Event>)
  {
    forall x, y :: x in events && y in events && x.tenant == y.tenant && x.eventId == y.eventId ==> x == y
  }

  /** The same events in another order, under the conditions that make evaluation order-blind. */
  ghost predicate Reordered(a: seq<Event>, b: seq<Event>)
  {
    multiset(a) == multiset(b) && DistinctIds(a) && ScoreFixesSeverity(a)
  }

  lemma SameMembers(a: seq<Event>, b: seq<Event>)
    requires Reordered(a, b)
    ensures Reordered(b, a)
    ensures forall e :: e in a <==> e in b
  {
    MultisetMembers(a, b);
  }

  lemma SameTypes(a: seq<Event>, b: seq<Event>, k: AssetKey)
    requires Reordered(a, b)
    ensures Types(a, k) == Types(b, k)
  {
    SameMembers(a, b);
  }

  lemma SameAssets(a: seq<Event>, b: seq<Event>)
    requires multiset(a) == multiset(b)
    ensures multiset(AssetOrder(a)) == multiset(AssetOrder(b))
  {
    MultisetMembers(a, b);
    AssetOrderFacts(a);
    AssetOrderFacts(b);
    forall k ensures multiset(AssetOrder(a))[k] == multiset(AssetOrder(b))[k] {
      DistinctCounts(AssetOrder(a), k);
      DistinctCounts(AssetOrder(b), k);
    }
  }

  lemma SameBound(a: seq<Event>, b: seq<Event>, id: string)
    requires Reordered(a, b)
    ensures multiset(BoundOrder(a, id)) == multiset(BoundOrder(b, id))
    ensures SortedBound(a, id) == SortedBound(b, id)
  {
    FilterMultiset(a, b, Binds(id));
    SameAssets(Filter(a, Binds(id)), Filter(b, Binds(id)));
    KeyOrder();
    SortForgetsOrder(BoundOrder(a, id), BoundOrder(b, id), KeyLe);
  }

  lemma SameRows(a: seq<Event>, b: seq<Event>, id: string, k: AssetKey)
    requires multiset(a) == multiset(b)
    ensures multiset(BoundRows(a, id, k)) == multiset(BoundRows(b, id, k))
  {
    forall x ensures multiset(BoundRows(a, id, k))[x] == multiset(BoundRows(b, id, k))[x] {
      BoundRowsFacts(a, id, k, x);
      BoundRowsFacts(b, id, k, x);
    }
  }

  lemma {:induction false} LastWinsFinds(events: seq<Event>, e: Event)
    requires DistinctIds(events) && e in events
    ensures (e.tenant, e.eventId) in LastWins(events) && LastWins(events)[(e.tenant, e.eventId)] == e.record
  {
    var n := |events| - 1;
    assert events == events[..n] + [events[n]];
    if e != events[n] {
      LastWinsFinds(events[..n], e);
    }
  }

  /** With distinct ids each event finds its own freshness record. */
  lemma RecordIsOwn(events: seq<Event>, e: Event)
    requires DistinctIds(events) && e in events
    ensures RecordIn(FreshnessMap(events))(e) == e.record
  {
    MultisetMembers(SortBy(events, RecordLe), events);
    LastWinsFinds(SortBy(events, RecordLe), e);
  }

  lemma SameStaleness(a: seq<Event>, b: seq<Event>, rows: seq<Event>, rows': seq<Event>, required: set<string>)
    requires Reordered(a, b) && (forall e :: e in rows ==> e in a) && (forall e :: e in rows <==> e in rows')
    ensures RowsStale(a, rows, required) == RowsStale(b, rows', required)
  {
    SameMembers(a, b);
    RecordsOfRows(a, rows);
    RecordsOfRows(b, rows');
    Freshness.StaleIgnoresOrder(Map(rows, RecordIn(FreshnessMap(a))), Map(rows', RecordIn(FreshnessMap(b))), required);
  }

  lemma RecordsOfRows(events: seq<Event>, rows: seq<Event>)
    requires DistinctIds(events) && forall e :: e in rows ==> e in events
    ensures Freshness.RecordSet(Map(rows, RecordIn(FreshnessMap(events)))) == set e | e in rows :: e.record
  {
    var records := Map(rows, RecordIn(FreshnessMap(events)));
    forall i | 0 <= i < |rows| ensures records[i] == rows[i].record {
      assert rows[i] in rows;
      RecordIsOwn(events, rows[i]);
    }
    forall r | r in Freshness.RecordSet(records) ensures r in set e | e in rows :: e.record {
      var i :| 0 <= i < |records| && records[i] == r;
      assert rows[i] in rows;
    }
    forall e | e in rows ensures e.record in Freshness.RecordSet(records) {
      var i :| 0 <= i < |rows| && rows[i] == e;
      assert records[i] == e.record;
    }
  }

  lemma SameVerdict(rules: Rules, a: seq<Event>, b: seq<Event>, d: Definition, k: AssetKey)
    requires Reordered(a, b)
    ensures AssetVerdict(rules, a, d, k) == AssetVerdict(rules, b, d, k)
  {
    SameTypes(a, b, k);
    var rows, rows' := BoundRows(a, d.id, k), BoundRows(b, d.id, k);
    SameRows(a, b, d.id, k);
    MultisetMembers(rows, rows');
    BoundRowsMembers(a, d.id, k);
    SameStaleness(a, b, rows, rows', d.requiredTypes);
    VerdictIgnoresOrder(d.id, rows, rows', rules.rule(d.ruleId), RowsStale(a, rows, d.requiredTypes));
  }

  lemma SameAssetResult(rules: Rules, a: seq<Event>, b: seq<Event>, d: Definition, k: AssetKey)
    requires Reordered(a, b)
    ensures AssetResultOf(rules, a, d, k) == AssetResultOf(rules, b, d, k)
  {
    SameVerdict(rules, a, b, d, k);
    SameRows(a, b, d.id, k);
    MultisetMembers(BoundRows(a, d.id, k), BoundRows(b, d.id, k));
  }

  lemma SameCount(a: seq<AssetKey>, b: seq<AssetKey>, p: AssetKey -> bool, q: AssetKey -> bool)
    requires multiset(a) == multiset(b) && forall k :: p(k) == q(k)
    ensures |Filter(a, p)| == |Filter(b, q)|
  {
    FilterMultiset(a, b, p);
    MultisetMembers(Filter(a, p), Filter(b, p));
    FilterSame(b, p, q);
  }

  lemma {:induction false} SameSum(a: seq<Event>, b: seq<Event>, types: seq<string>)
    requires Reordered(a, b)
    ensures SumTypes(a, types) == SumTypes(b, types)
  {
    if types != [] {
      var t := types[|types| - 1];
      SameSum(a, b, types[..|types| - 1]);
      SameAssets(a, b);
      forall k ensures OnlyType(a, t)(k) == OnlyType(b, t)(k) { SameTypes(a, b, k); }
      SameCount(AssetOrder(a), AssetOrder(b), OnlyType(a, t), OnlyType(b, t));
    }
  }

  lemma SameCounts(a: seq<Event>, b: seq<Event>, d: Definition)
    requires Reordered(a, b)
    ensures EligibleCount(a, d) == EligibleCount(b, d) && AmbiguousCount(a, d) == AmbiguousCount(b, d)
    ensures AssessedCount(a, d) == AssessedCount(b, d) && InvalidCount(a, d) == InvalidCount(b, d)
    ensures MissingCount(a, d) == MissingCount(b, d)
  {
    SameSum(a, b, DistinctTypes(d.assetTypes));
    SameAssets(a, b);
    SameBound(a, b, d.id);
    forall k ensures Types(a, k) == Types(b, k) { SameTypes(a, b, k); }
    SameCount(AssetOrder(a), AssetOrder(b), Ambiguous(a, Eligible(d)), Ambiguous(b, Eligible(d)));
    SameCount(BoundOrder(a, d.id), BoundOrder(b, d.id), Applicable(a, Eligible(d)), Applicable(b, Eligible(d)));
    MultisetMembers(BoundOrder(a, d.id), BoundOrder(b, d.id));
  }

  /** Every safeguard result and every asset result is unchanged. */
  lemma SafeguardsIgnoreOrder(rules: Rules, a: seq<Event>, b: seq<Event>, d: Definition)
    requires Reordered(a, b)
    ensures SafeguardOf(rules, a, d) == SafeguardOf(rules, b, d)
    ensures AssetResults(rules, a, d) == AssetResults(rules, b, d)
  {
    SameCounts(a, b, d);
    SameStates(rules, a, b, d);
    SameAssetResults(rules, a, b, d);
  }

  lemma SameStates(rules: Rules, a: seq<Event>, b: seq<Event>, d: Definition)
    requires Reordered(a, b)
    ensures BoundVerdicts(rules, a, d) == BoundVerdicts(rules, b, d)
  {
    SameBound(a, b, d.id);
    forall k ensures StatusOfAsset(rules, a, d)(k) == StatusOfAsset(rules, b, d)(k) { SameVerdict(rules, a, b, d, k); }
  }

  lemma SameAssetResults(rules: Rules, a: seq<Event>, b: seq<Event>, d: Definition)
    requires Reordered(a, b)
    ensures AssetResults(rules, a, d) == AssetResults(rules, b, d)
  {
    SameBound(a, b, d.id);
    var order := SortedBound(a, d.id);
    forall i | 0 <= i < |order| ensures AssetResultOf(rules, a, d, order[i]) == AssetResultOf(rules, b, d, order[i]) {
      SameAssetResult(rules, a, b, d, order[i]);
    }
  }

  /** Every requirement result is unchanged. */
  lemma RequirementsIgnoreOrder(rules: Rules, a: seq<Event>, b: seq<Event>, definitions: seq<Definition>, control: Control, verified: bool)
    requires Reordered(a, b)
    ensures RequirementOf(rules, a, definitions, control, verified) == RequirementOf(rules, b, definitions, control, verified)
  {
    var reviewed := Reviewed(definitions, control.id);
    SameMembers(a, b);
    RequirementRowsMembers(a, reviewed);
    RequirementRowsMembers(b, reviewed);
    SameStaleness(a, b, RequirementRows(a, reviewed), RequirementRows(b, reviewed), control.requiredTypes);
    StatusesIgnoreOrder(rules, a, b, reviewed);
  }

  lemma StatusesIgnoreOrder(rules: Rules, a: seq<Event>, b: seq<Event>, reviewed: seq<Definition>)
    requires Reordered(a, b)
    ensures ReviewedStatuses(rules, a, reviewed) == ReviewedStatuses(rules, b, reviewed)
  {
    forall i | 0 <= i < |reviewed|
      ensures ReviewedStatuses(rules, a, reviewed)[i] == ReviewedStatuses(rules, b, reviewed)[i]
    {
      SafeguardsIgnoreOrder(rules, a, b, reviewed[i]);
    }
  }
}
