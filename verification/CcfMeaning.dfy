/** What the evaluation says, in terms of the events, the mappings and the catalog (ccf_evaluation.py). */
module CcfMeaning {
  import opened Orders
  import opened Text
  import opened ControlVerdicts
  import opened CcfEvaluation
  import Freshness = EvidenceFreshness

  // --------------------------------------------------------------------- assets

  ghost predicate SameAsset(e: Event, other: Event) { e.tenant == other.tenant && e.assetId == other.assetId }

  /** Every observation of the event's asset has one and the same type, and the safeguard names it. */
  ghost predicate OneEligibleType(events: seq<Event>, d: Definition, e: Event)
  {
    exists t :: t in d.assetTypes && forall other :: other in events && SameAsset(other, e) ==> other.assetType == t
  }

  lemma ApplicableMeaning(events: seq<Event>, d: Definition, e: Event)
    requires e in events
    ensures Applicable(events, Eligible(d))(KeyOf(e)) <==> OneEligibleType(events, d, e)
  {
    var types := Types(events, KeyOf(e));
    assert e.assetType in types;
    if Applicable(events, Eligible(d))(KeyOf(e)) {
      Singleton(types, e.assetType);
      forall other | other in events && SameAsset(other, e) ensures other.assetType == e.assetType {
        assert other.assetType in types;
      }
    }
    if t :| t in d.assetTypes && forall other :: other in events && SameAsset(other, e) ==> other.assetType == t {
      assert types == {t};
    }
  }

  ghost function EligibleAssets(events: seq<Event>, d: Definition): set<AssetKey>
  {
    set e | e in events && OneEligibleType(events, d, e) :: AssetKey(e.tenant, e.assetId)
  }

  ghost function BoundAssets(events: seq<Event>, d: Definition): set<AssetKey>
  {
    set e | e in events && d.id in e.safeguardIds :: AssetKey(e.tenant, e.assetId)
  }

  /** The counts of a safeguard are sizes of sets of assets. */
  lemma PopulationMeaning(rules: Rules, events: seq<Event>, d: Definition)
    ensures var r := SafeguardOf(rules, events, d);
            && r.id == d.id && r.title == d.title
            && r.applicable == |EligibleAssets(events, d)|
            && r.assessed == |EligibleAssets(events, d) * BoundAssets(events, d)|
            && r.unassessed == |EligibleAssets(events, d) - BoundAssets(events, d)|
            && r.invalid == |BoundAssets(events, d) - EligibleAssets(events, d)|
  {
    PopulationAccounting(events, d);
    EligibleSize(events, d);
    AssessedSize(events, d);
    BoundSize(events, d);
    SplitSizes(EligibleAssets(events, d), BoundAssets(events, d));
  }

  lemma SplitSizes(a: set<AssetKey>, b: set<AssetKey>)
    ensures |a - b| == |a| - |a * b| && |b - a| == |b| - |a * b|
  {
    assert a == (a - b) + a * b && b == (b - a) + a * b;
  }

  lemma EligibleSize(events: seq<Event>, d: Definition)
    ensures |Filter(AssetOrder(events), Applicable(events, Eligible(d)))| == |EligibleAssets(events, d)|
  {
    EligibleMembers(events, d);
    FilterDistinct(AssetOrder(events), Applicable(events, Eligible(d)));
    ListedSize(Filter(AssetOrder(events), Applicable(events, Eligible(d))), EligibleAssets(events, d));
  }

  lemma AssessedSize(events: seq<Event>, d: Definition)
    ensures AssessedCount(events, d) == |EligibleAssets(events, d) * BoundAssets(events, d)|
  {
    EligibleMembers(events, d);
    BoundMembers(events, d);
    FilterDistinct(BoundOrder(events, d.id), Applicable(events, Eligible(d)));
    ListedSize(Filter(BoundOrder(events, d.id), Applicable(events, Eligible(d))), EligibleAssets(events, d) * BoundAssets(events, d));
  }

  lemma BoundSize(events: seq<Event>, d: Definition)
    ensures |BoundOrder(events, d.id)| == |BoundAssets(events, d)|
  {
    BoundMembers(events, d);
    ListedSize(BoundOrder(events, d.id), BoundAssets(events, d));
  }

  lemma ListedSize(order: seq<AssetKey>, assets: set<AssetKey>)
    requires Distinct(order) && forall a :: a in order <==> a in assets
    ensures |order| == |assets|
  {
    DistinctSize(order);
    assert (set a | a in order) == assets;
  }

  lemma EligibleMembers(events: seq<Event>, d: Definition)
    ensures Distinct(AssetOrder(events))
    ensures forall a :: a in EligibleAssets(events, d) <==> a in AssetOrder(events) && Applicable(events, Eligible(d))(a)
  {
    AssetOrderFacts(events);
    forall e | e in events ensures Applicable(events, Eligible(d))(KeyOf(e)) <==> OneEligibleType(events, d, e) {
      ApplicableMeaning(events, d, e);
    }
  }

  lemma BoundMembers(events: seq<Event>, d: Definition)
    ensures Distinct(BoundOrder(events, d.id))
    ensures forall a :: a in BoundAssets(events, d) <==> a in BoundOrder(events, d.id)
    ensures forall a :: a in BoundOrder(events, d.id) ==> a in AssetOrder(events)
  {
    BoundOrderFacts(events, d.id);
  }

  // ------------------------------------------------------------------- freshness

  /** The order in which the freshness dict lists the statuses: that of their names. */
  function StatusRank(s: Freshness.Status): nat { match s case Expired => 0 case Fresh => 1 case Missing => 2 case Stale => 3 }

  /** The record is listed at or before the other one. */
  ghost predicate ListedBefore(r: Freshness.Record, other: Freshness.Record)
  {
    StatusRank(r.status) < StatusRank(other.status) || (r.status == other.status && StrLe(r.source, other.source))
  }

  lemma NamesInOrder(a: Freshness.Status, b: Freshness.Status)
    ensures StrLe(StatusText(a), StatusText(b)) <==> StatusRank(a) <= StatusRank(b)
    ensures StatusText(a) == StatusText(b) <==> a == b
  {
    assert "expired"[0] == 'e' && "fresh"[0] == 'f' && "missing"[0] == 'm' && "stale"[0] == 's';
  }

  lemma RecordOrder()
    ensures TotalPreorder(RecordLe)
  {
    StrLeIsOrder();
    forall a, b ensures RecordLe(a, b) || RecordLe(b, a) { StrLeTotal(a.eventId, b.eventId); }
    forall a, b, c | RecordLe(a, b) && RecordLe(b, c) ensures RecordLe(a, c) {
      RecordOrderTransitive(a, b, c);
    }
  }

  lemma RecordOrderTransitive(a: Event, b: Event, c: Event)
    requires RecordLe(a, b) && RecordLe(b, c)
    ensures RecordLe(a, c)
  {
    StrLeIsOrder();
    NamesInOrder(a.record.status, b.record.status);
    NamesInOrder(b.record.status, c.record.status);
    NamesInOrder(a.record.status, c.record.status);
  }

  lemma RecordLeMeans(a: Event, b: Event)
    requires RecordLe(a, b)
    ensures ListedBefore(a.record, b.record)
  {
    NamesInOrder(a.record.status, b.record.status);
    StrLeTotal(a.record.source, a.record.source);
  }

  ghost predicate SameId(a: Event, b: Event) { a.tenant == b.tenant && a.eventId == b.eventId }

  /** The last event of a tenant and id decides. */
  lemma {:induction false} LastWinsIsLast(events: seq<Event>, e: Event) returns (last: nat)
    requires e in events
    ensures last < |events| && SameId(events[last], e)
    ensures forall j :: last < j < |events| ==> !SameId(events[j], e)
    ensures (e.tenant, e.eventId) in LastWins(events) && LastWins(events)[(e.tenant, e.eventId)] == events[last].record
  {
    var n := |events| - 1;
    assert events == events[..n] + [events[n]];
    if SameId(events[n], e) {
      last := n;
    } else {
      last := LastWinsIsLast(events[..n], e);
    }
  }

  /** An event is judged by the record listed last among those of its tenant and id. */
  lemma RecordMeaning(events: seq<Event>, e: Event)
    requires e in events
    ensures var r := RecordIn(FreshnessMap(events))(e);
            && (exists own :: own in events && SameId(own, e) && own.record == r)
            && forall other :: other in events && SameId(other, e) ==> ListedBefore(other.record, r)
  {
    var sorted := SortBy(events, RecordLe);
    RecordOrder();
    SortIsSorted(events, RecordLe);
    MultisetMembers(sorted, events);
    var last := LastWinsIsLast(sorted, e);
    assert sorted[last] in sorted && SameId(sorted[last], e);
    forall other | other in events && SameId(other, e) ensures ListedBefore(other.record, sorted[last].record) {
      ListedUpTo(sorted, e, last, other);
    }
  }

  lemma ListedUpTo(sorted: seq<Event>, e: Event, last: nat, other: Event)
    requires Sorted(sorted, RecordLe) && last < |sorted|
    requires forall j :: last < j < |sorted| ==> !SameId(sorted[j], e)
    requires other in sorted && SameId(other, e)
    ensures ListedBefore(other.record, sorted[last].record)
  {
    var j :| 0 <= j < |sorted| && sorted[j] == other;
    assert RecordLe(sorted[j], sorted[last]);
    RecordLeMeans(other, sorted[last]);
  }

  // -------------------------------------------------------------------- verdicts

  ghost function AssetRecords(events: seq<Event>, d: Definition, e: Event): set<Freshness.Record>
  {
    set other | other in events && SameAsset(other, e) && d.id in other.safeguardIds :: RecordIn(FreshnessMap(events))(other)
  }

  /** The verdict of an event's asset: none without one eligible type, and otherwise that of its bound rows, which hold
      each of its events as often as it names the safeguard. */
  lemma AssetVerdictMeaning(rules: Rules, events: seq<Event>, d: Definition, e: Event)
    requires e in events
    ensures AssetVerdict(rules, events, d, AssetKey(e.tenant, e.assetId)) ==
            if OneEligibleType(events, d, e)
            then Evaluate(d.id, BoundRows(events, d.id, KeyOf(e)), rules.rule(d.ruleId),
                          Freshness.StaleEvidence(AssetRecords(events, d, e), d.requiredTypes))
            else VerdictResult(NotEvaluated, ["The asset type does not establish safeguard applicability."])
  {
    ApplicableMeaning(events, d, e);
    RowsStaleMeaning(events, d, e);
  }

  lemma BoundRowsMeaning(events: seq<Event>, d: Definition, e: Event)
    ensures forall x :: multiset(BoundRows(events, d.id, KeyOf(e)))[x]
                        == if SameAsset(x, e) then multiset(events)[x] * multiset(x.safeguardIds)[d.id] else 0
  {
    forall x ensures multiset(BoundRows(events, d.id, KeyOf(e)))[x]
                     == if SameAsset(x, e) then multiset(events)[x] * multiset(x.safeguardIds)[d.id] else 0 {
      BoundRowsFacts(events, d.id, KeyOf(e), x);
      assert SameAsset(x, e) <==> KeyOf(x) == KeyOf(e);
    }
  }

  lemma RowsStaleMeaning(events: seq<Event>, d: Definition, e: Event)
    ensures RowsStale(events, BoundRows(events, d.id, KeyOf(e)), d.requiredTypes)
       <==> Freshness.StaleEvidence(AssetRecords(events, d, e), d.requiredTypes)
  {
    AssetRowRecords(events, d, e);
    Freshness.StaleMeaning(Map(BoundRows(events, d.id, KeyOf(e)), RecordIn(FreshnessMap(events))), d.requiredTypes);
  }

  lemma AssetRowRecords(events: seq<Event>, d: Definition, e: Event)
    ensures Freshness.RecordSet(Map(BoundRows(events, d.id, KeyOf(e)), RecordIn(FreshnessMap(events)))) == AssetRecords(events, d, e)
  {
    var rows, f := BoundRows(events, d.id, KeyOf(e)), RecordIn(FreshnessMap(events));
    BoundRowsMembers(events, d.id, KeyOf(e));
    forall r ensures r in Map(rows, f) <==> r in AssetRecords(events, d, e) {
      MapMembers(rows, f, r);
    }
  }

  /** Some event is bound, every asset observed under a named type is of one type and bound, every bound asset is of one
      named type, and every bound asset passes. */
  lemma FullyAssessedMeaning(rules: Rules, events: seq<Event>, d: Definition)
    ensures FullyAssessed(rules, events, d) <==>
            && (exists e :: e in events && d.id in e.safeguardIds)
            && (forall e :: e in events && e.assetType in d.assetTypes ==>
                  OneEligibleType(events, d, e) && AssetKey(e.tenant, e.assetId) in BoundAssets(events, d))
            && (forall e :: e in events && d.id in e.safeguardIds ==>
                  OneEligibleType(events, d, e) && AssetVerdict(rules, events, d, AssetKey(e.tenant, e.assetId)).status == Pass)
  {
    PopulationBoundMeaning(events, d);
    BindingsApplyMeaning(events, d);
    SomethingBound(events, d);
    BoundPass(rules, events, d);
  }

  lemma SomethingBound(events: seq<Event>, d: Definition)
    ensures BoundOrder(events, d.id) != [] <==> exists e :: e in events && d.id in e.safeguardIds
  {
    BoundOrderFacts(events, d.id);
    if BoundOrder(events, d.id) != [] {
      assert BoundOrder(events, d.id)[0] in BoundOrder(events, d.id);
    }
    if e :| e in events && d.id in e.safeguardIds {
      assert KeyOf(e) in BoundOrder(events, d.id);
    }
  }

  lemma BoundPass(rules: Rules, events: seq<Event>, d: Definition)
    ensures (forall a :: a in BoundOrder(events, d.id) ==> AssetVerdict(rules, events, d, a).status == Pass)
       <==> forall e :: e in events && d.id in e.safeguardIds ==> AssetVerdict(rules, events, d, AssetKey(e.tenant, e.assetId)).status == Pass
  {
    BoundOrderFacts(events, d.id);
    forall e | e in events && d.id in e.safeguardIds ensures KeyOf(e) in BoundOrder(events, d.id) {}
  }

  lemma BindingsApplyMeaning(events: seq<Event>, d: Definition)
    ensures BindingsApply(events, d) <==> forall e :: e in events && d.id in e.safeguardIds ==> OneEligibleType(events, d, e)
  {
    BoundOrderFacts(events, d.id);
    forall e | e in events ensures Applicable(events, Eligible(d))(KeyOf(e)) <==> OneEligibleType(events, d, e) {
      ApplicableMeaning(events, d, e);
    }
  }

  lemma PopulationBoundMeaning(events: seq<Event>, d: Definition)
    ensures PopulationBound(events, d) <==>
            forall e :: e in events && e.assetType in d.assetTypes ==>
              OneEligibleType(events, d, e) && AssetKey(e.tenant, e.assetId) in BoundAssets(events, d)
  {
    AssetOrderFacts(events);
    BoundMembers(events, d);
    forall e | e in events && e.assetType in d.assetTypes
      ensures OneEligibleType(events, d, e) <==> |Types(events, KeyOf(e))| == 1
    {
      ApplicableMeaning(events, d, e);
      assert e.assetType in Types(events, KeyOf(e));
      if |Types(events, KeyOf(e))| == 1 { Singleton(Types(events, KeyOf(e)), e.assetType); }
    }
    forall e | e in events && e.assetType in d.assetTypes
      ensures KeyOf(e) in AssetOrder(events) && e.assetType in Types(events, KeyOf(e)) * Eligible(d)
    {
    }
    if forall e :: e in events && e.assetType in d.assetTypes ==> OneEligibleType(events, d, e) && KeyOf(e) in BoundAssets(events, d) {
      forall a | a in AssetOrder(events) && Types(events, a) * Eligible(d) != {}
        ensures |Types(events, a)| == 1 && a in BoundOrder(events, d.id)
      {
        var t :| t in Types(events, a) * Eligible(d);
        var e :| e in events && KeyOf(e) == a && e.assetType == t;
      }
    }
  }

  /** A safeguard is left open exactly when no bound asset fails and something is unknown: no event is bound, an asset is
      unbound or of no single named type, or a bound asset is not evaluated. */
  lemma SafeguardOpenIff(rules: Rules, events: seq<Event>, d: Definition)
    ensures SafeguardOf(rules, events, d).status == NotEvaluated <==>
            && (forall a :: a in BoundAssets(events, d) ==> AssetVerdict(rules, events, d, a).status != Fail)
            && (|| BoundAssets(events, d) == {}
                || (exists e :: e in events && e.assetType in d.assetTypes
                                && !(OneEligibleType(events, d, e) && AssetKey(e.tenant, e.assetId) in BoundAssets(events, d)))
                || (exists e :: e in events && d.id in e.safeguardIds && !OneEligibleType(events, d, e))
                || (exists a :: a in BoundAssets(events, d) && AssetVerdict(rules, events, d, a).status == NotEvaluated))
  {
    SafeguardOpenStates(rules, events, d);
    CompletenessMeaning(events, d);
    PopulationBoundMeaning(events, d);
    BindingsApplyMeaning(events, d);
  }

  lemma SafeguardOpenStates(rules: Rules, events: seq<Event>, d: Definition)
    ensures SafeguardOf(rules, events, d).status == NotEvaluated <==>
            && (forall a :: a in BoundAssets(events, d) ==> AssetVerdict(rules, events, d, a).status != Fail)
            && (|| BoundAssets(events, d) == {} || !Complete(events, d)
                || (exists a :: a in BoundAssets(events, d) && AssetVerdict(rules, events, d, a).status == NotEvaluated))
  {
    var states, verdicts := States(rules, events, d), BoundVerdicts(rules, events, d);
    CombineMeaning(states);
    VerdictMembers(rules, events, d, Fail);
    VerdictMembers(rules, events, d, NotEvaluated);
    BoundMembers(events, d);
    assert states == verdicts + if Complete(events, d) then [] else [NotEvaluated];
    assert NotEvaluated in states <==> NotEvaluated in verdicts || !Complete(events, d);
    assert Fail in states <==> Fail in verdicts;
    assert BoundAssets(events, d) == {} <==> BoundOrder(events, d.id) == [] by {
      if BoundOrder(events, d.id) != [] { assert BoundOrder(events, d.id)[0] in BoundAssets(events, d); }
    }
  }

  // ------------------------------------------------------------------ asset rows

  lemma AssetResultMeaning(rules: Rules, events: seq<Event>, d: Definition, e: Event)
    ensures var r := AssetResultOf(rules, events, d, AssetKey(e.tenant, e.assetId));
            && r.eventIds == (set x | x in events && SameAsset(x, e) && d.id in x.safeguardIds :: x.eventId)
            && r.hashes == (set x | x in events && SameAsset(x, e) && d.id in x.safeguardIds :: x.rawSha256)
            && VerdictResult(r.status, r.reasons) == AssetVerdict(rules, events, d, AssetKey(e.tenant, e.assetId))
  {
    BoundRowsMembers(events, d.id, KeyOf(e));
  }

  /** One row per bound asset, ordered by tenant and then by asset. */
  lemma AssetResultsMeaning(rules: Rules, events: seq<Event>, d: Definition)
    ensures var rows := AssetResults(rules, events, d);
            && |rows| == |BoundAssets(events, d)|
            && (forall r :: r in rows ==> r.safeguardId == d.id && r.asset in BoundAssets(events, d)
                                          && r == AssetResultOf(rules, events, d, r.asset))
            && forall i, j :: 0 <= i < j < |rows| ==>
                 && rows[i].asset != rows[j].asset
                 && StrLe(rows[i].asset.tenant, rows[j].asset.tenant)
                 && (rows[i].asset.tenant == rows[j].asset.tenant ==> StrLe(rows[i].asset.asset, rows[j].asset.asset))
  {
    var order := SortedBound(events, d.id);
    SortedBoundFacts(events, d);
    BoundSize(events, d);
    forall i | 0 <= i < |order|
      ensures AssetResults(rules, events, d)[i] == AssetResultOf(rules, events, d, order[i]) && order[i] in order
    {
    }
  }

  lemma SortedBoundFacts(events: seq<Event>, d: Definition)
    ensures var order := SortedBound(events, d.id);
            && |order| == |BoundOrder(events, d.id)| && Distinct(order)
            && (forall a :: a in order ==> a in BoundAssets(events, d))
            && forall i, j :: 0 <= i < j < |order| ==>
                 && StrLe(order[i].tenant, order[j].tenant)
                 && (order[i].tenant == order[j].tenant ==> StrLe(order[i].asset, order[j].asset))
  {
    var order, bound := SortedBound(events, d.id), BoundOrder(events, d.id);
    BoundMembers(events, d);
    KeyOrder();
    SortIsSorted(bound, KeyLe);
    MultisetMembers(order, bound);
    SortKeepsDistinct(order, bound);
    StrLeIsOrder();
    forall i, j | 0 <= i < j < |order|
      ensures StrLe(order[i].tenant, order[j].tenant) && (order[i].tenant == order[j].tenant ==> StrLe(order[i].asset, order[j].asset))
    {
      assert KeyLe(order[i], order[j]);
    }
  }

  lemma SortKeepsDistinct(sorted: seq<AssetKey>, s: seq<AssetKey>)
    requires multiset(sorted) == multiset(s) && Distinct(s)
    ensures Distinct(sorted) && |sorted| == |s|
  {
    assert |multiset(sorted)| == |sorted| && |multiset(s)| == |s|;
    forall i, j | 0 <= i < j < |sorted| ensures sorted[i] != sorted[j] {
      if sorted[i] == sorted[j] {
        CountedTwice(sorted, i, j);
        DistinctCounts(s, sorted[i]);
      }
    }
  }
}
