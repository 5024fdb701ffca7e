/** The evaluation passes as the program runs them: index, count, judge, roll up (ccf_evaluation.py). */
module CcfEvaluator {
  import opened Outcomes
  import opened Orders
  import opened ControlVerdicts
  import opened CcfEvaluation
  import Freshness = EvidenceFreshness

  /** `assets` and `bound`, with the key order of each dict; `rows` flattens the nested dict. */
  datatype Index = Index(order: seq<AssetKey>, assets: map<AssetKey, set<string>>,
                         boundOrder: map<string, seq<AssetKey>>, rows: map<(string, AssetKey), seq<Event>>)

  function TypesIn(index: Index, a: AssetKey): set<string> { if a in index.assets then index.assets[a] else {} }

  function OrderIn(index: Index, id: string): seq<AssetKey> { if id in index.boundOrder then index.boundOrder[id] else [] }

  function RowsIn(index: Index, id: string, a: AssetKey): seq<Event>
  {
    if (id, a) in index.rows then index.rows[(id, a)] else []
  }

  ghost predicate TypesIndexed(index: Index, events: seq<Event>)
  {
    index.order == AssetOrder(events) && forall a :: TypesIn(index, a) == Types(events, a)
  }

  ghost predicate OrdersIndexed(index: Index, events: seq<Event>)
  {
    forall id :: OrderIn(index, id) == BoundOrder(events, id)
  }

  ghost predicate RowsIndexed(index: Index, events: seq<Event>)
  {
    forall id, a :: RowsIn(index, id, a) == BoundRows(events, id, a)
  }

  ghost predicate Indexes(index: Index, events: seq<Event>)
  {
    TypesIndexed(index, events) && OrdersIndexed(index, events) && RowsIndexed(index, events)
  }

  /** `bound[id]` and `bound[id][a]` while event `e` has bound the safeguards `ids`. */
  function PartOrder(before: seq<Event>, e: Event, ids: seq<string>, id: string): seq<AssetKey>
  {
    var order := BoundOrder(before, id);
    if id in ids && KeyOf(e) !in order then order + [KeyOf(e)] else order
  }

  function PartRows(before: seq<Event>, e: Event, ids: seq<string>, id: string, a: AssetKey): seq<Event>
  {
    var rows := BoundRows(before, id, a);
    if a == KeyOf(e) then rows + Repeat(e, multiset(ids)[id]) else rows
  }

  ghost predicate PartlyBound(index: Index, before: seq<Event>, e: Event, ids: seq<string>)
  {
    && (forall id :: OrderIn(index, id) == PartOrder(before, e, ids, id))
    && (forall id, a :: RowsIn(index, id, a) == PartRows(before, e, ids, id, a))
  }

  function Bind(index: Index, id: string, e: Event): Index
  {
    var order := OrderIn(index, id);
    index.(boundOrder := index.boundOrder[id := if KeyOf(e) in order then order else order + [KeyOf(e)]],
           rows := index.rows[(id, KeyOf(e)) := RowsIn(index, id, KeyOf(e)) + [e]])
  }

  lemma PartRowsStep(before: seq<Event>, e: Event, ids: seq<string>, new_id: string, id: string, a: AssetKey)
    ensures PartRows(before, e, ids + [new_id], id, a)
            == PartRows(before, e, ids, id, a) + if a == KeyOf(e) && id == new_id then [e] else []
  {
    var k := multiset(ids)[id];
    CountAppend(ids, [new_id], id);
    if a == KeyOf(e) && id == new_id {
      assert Repeat(e, k + 1) == Repeat(e, k) + [e];
    } else {
      assert PartRows(before, e, ids, id, a) + [] == PartRows(before, e, ids, id, a);
    }
  }

  lemma BindStep(index: Index, before: seq<Event>, e: Event, ids: seq<string>, id: string)
    requires PartlyBound(index, before, e, ids)
    ensures PartlyBound(Bind(index, id, e), before, e, ids + [id])
  {
    var next := Bind(index, id, e);
    forall other, a ensures RowsIn(next, other, a) == PartRows(before, e, ids + [id], other, a) {
      BindRows(index, before, e, ids, id, other, a);
    }
    forall other ensures OrderIn(next, other) == PartOrder(before, e, ids + [id], other) {
      BindOrder(index, before, e, ids, id, other);
    }
  }

  lemma BindRows(index: Index, before: seq<Event>, e: Event, ids: seq<string>, id: string, other: string, a: AssetKey)
    requires PartlyBound(index, before, e, ids)
    ensures RowsIn(Bind(index, id, e), other, a) == PartRows(before, e, ids + [id], other, a)
  {
    PartRowsStep(before, e, ids, id, other, a);
    BindAdds(index, e, id, other, a);
    assert RowsIn(index, other, a) == PartRows(before, e, ids, other, a);
  }

  lemma BindAdds(index: Index, e: Event, id: string, other: string, a: AssetKey)
    ensures RowsIn(Bind(index, id, e), other, a) == RowsIn(index, other, a) + if other == id && a == KeyOf(e) then [e] else []
  {
    var was := RowsIn(index, other, a);
    assert was + [] == was;
  }

  lemma BindOrder(index: Index, before: seq<Event>, e: Event, ids: seq<string>, id: string, other: string)
    requires PartlyBound(index, before, e, ids)
    ensures OrderIn(Bind(index, id, e), other) == PartOrder(before, e, ids + [id], other)
  {
    assert OrderIn(index, other) == PartOrder(before, e, ids, other);
  }

  lemma NothingBound(index: Index, before: seq<Event>, e: Event)
    requires OrdersIndexed(index, before) && RowsIndexed(index, before)
    ensures PartlyBound(index, before, e, [])
  {
    forall id, a ensures RowsIn(index, id, a) == PartRows(before, e, [], id, a) {
      assert Repeat(e, 0) == [];
    }
  }

  lemma FullyBound(index: Index, events: seq<Event>, i: nat)
    requires i < |events| && PartlyBound(index, events[..i], events[i], events[i].safeguardIds)
    ensures OrdersIndexed(index, events[..i + 1]) && RowsIndexed(index, events[..i + 1])
  {
    var e, before := events[i], events[..i];
    assert events[..i + 1][..i] == before;
    forall id ensures OrderIn(index, id) == BoundOrder(events[..i + 1], id) {
      FilterNext(events, i, Binds(id));
      var bound := Filter(before, Binds(id));
      assert (bound + [e])[..|bound|] == bound;
      assert bound + [] == bound;
      assert OrderIn(index, id) == PartOrder(before, e, e.safeguardIds, id);
    }
    forall id, a ensures RowsIn(index, id, a) == BoundRows(events[..i + 1], id, a) {
      assert RowsIn(index, id, a) == PartRows(before, e, e.safeguardIds, id, a);
      assert BoundRows(before, id, a) + [] == BoundRows(before, id, a);
    }
  }

  function WithAsset(index: Index, e: Event): Index
  {
    var key := KeyOf(e);
    index.(order := if key in index.order then index.order else index.order + [key],
           assets := index.assets[key := TypesIn(index, key) + {e.assetType}])
  }

  lemma AssetStep(index: Index, events: seq<Event>, i: nat)
    requires i < |events| && TypesIndexed(index, events[..i])
    ensures TypesIndexed(WithAsset(index, events[i]), events[..i + 1])
  {
    assert events[..i + 1][..i] == events[..i] && events[..i + 1] == events[..i] + [events[i]];
    forall a ensures TypesIn(WithAsset(index, events[i]), a) == Types(events[..i + 1], a) {
      assert TypesIn(index, a) == Types(events[..i], a);
    }
  }

  /** The first loop; None is the error for an event that names an unknown safeguard. */
  method IndexEvents(events: seq<Event>, known: set<string>) returns (result: Option<Index>)
    ensures result.Some? <==> forall e :: e in events ==> Known(e.safeguardIds, known)
    ensures result.Some? ==> Indexes(result.value, events)
  {
    var index := Index([], map[], map[], map[]);
    for i := 0 to |events|
      invariant Indexes(index, events[..i])
      invariant forall e :: e in events[..i] ==> Known(e.safeguardIds, known)
    {
      var e := events[i];
      AssetStep(index, events, i);
      var bound := BindAll(WithAsset(index, e), events[..i], e, known);
      TakeNext(events, i);
      if bound.None? {
        assert e in events;
        return None;
      }
      FullyBound(bound.value, events, i);
      index := bound.value;
    }
    assert events[..|events|] == events;
    result := Some(index);
  }

  predicate Known(ids: seq<string>, known: set<string>) { forall id :: id in ids ==> id in known }

  method BindAll(start: Index, ghost before: seq<Event>, e: Event, known: set<string>) returns (result: Option<Index>)
    requires OrdersIndexed(start, before) && RowsIndexed(start, before)
    ensures result.Some? <==> Known(e.safeguardIds, known)
    ensures result.Some? ==> PartlyBound(result.value, before, e, e.safeguardIds)
    ensures result.Some? ==> result.value.order == start.order && result.value.assets == start.assets
  {
    var index := start;
    NothingBound(index, before, e);
    for n := 0 to |e.safeguardIds|
      invariant PartlyBound(index, before, e, e.safeguardIds[..n])
      invariant Known(e.safeguardIds[..n], known)
      invariant index.order == start.order && index.assets == start.assets
    {
      var id := e.safeguardIds[n];
      if id !in known { return None; }
      BindStep(index, before, e, e.safeguardIds[..n], id);
      TakeNext(e.safeguardIds, n);
      index := Bind(index, id, e);
    }
    assert e.safeguardIds[..|e.safeguardIds|] == e.safeguardIds;
    result := Some(index);
  }

  function CountIn(counts: map<string, nat>, t: string): nat { if t in counts then counts[t] else 0 }

  ghost predicate CountsTypes(counts: map<string, nat>, events: seq<Event>)
  {
    forall t :: CountIn(counts, t) == TypeCount(events, t)
  }

  /** `Counter(next(iter(types)) for types in assets.values() if len(types) == 1)` */
  method CountTypes(index: Index, ghost events: seq<Event>) returns (counts: map<string, nat>)
    requires TypesIndexed(index, events)
    ensures CountsTypes(counts, events)
  {
    counts := map[];
    for i := 0 to |index.order|
      invariant forall t :: CountIn(counts, t) == |Filter(index.order[..i], OnlyType(events, t))|
    {
      var types := TypesIn(index, index.order[i]);
      ghost var was := counts;
      if |types| == 1 {
        var t :| t in types;
        Singleton(types, t);
        counts := counts[t := CountIn(counts, t) + 1];
      }
      forall t ensures CountIn(counts, t) == |Filter(index.order[..i + 1], OnlyType(events, t))| {
        FilterNext(index.order, i, OnlyType(events, t));
        assert CountIn(was, t) == |Filter(index.order[..i], OnlyType(events, t))|;
      }
    }
    assert index.order[..|index.order|] == index.order;
  }

  method SumEligible(counts: map<string, nat>, types: seq<string>, ghost events: seq<Event>) returns (sum: nat)
    requires CountsTypes(counts, events)
    ensures sum == SumTypes(events, types)
  {
    sum := 0;
    for i := 0 to |types|
      invariant sum == SumTypes(events, types[..i])
    {
      assert types[..i + 1][..i] == types[..i];
      sum := sum + CountIn(counts, types[i]);
    }
    assert types[..|types|] == types;
  }

  function ApplicableIn(index: Index, eligible: set<string>): AssetKey -> bool
  {
    (a: AssetKey) => |TypesIn(index, a)| == 1 && TypesIn(index, a) <= eligible
  }

  function AmbiguousIn(index: Index, eligible: set<string>): AssetKey -> bool
  {
    (a: AssetKey) => |TypesIn(index, a)| != 1 && TypesIn(index, a) * eligible != {}
  }

  /** One bound asset of one safeguard. */
  method JudgeAsset(rules: Rules, index: Index, ghost events: seq<Event>, records: map<(string, string), Freshness.Record>,
                    d: Definition, a: AssetKey) returns (verdict: VerdictResult)
    requires Indexes(index, events) && records == FreshnessMap(events)
    ensures verdict == AssetVerdict(rules, events, d, a)
  {
    if !ApplicableIn(index, Eligible(d))(a) {
      return VerdictResult(NotEvaluated, ["The asset type does not establish safeguard applicability."]);
    }
    var rows := RowsIn(index, d.id, a);
    var stale := Freshness.CurrentEvidenceIsStale(Map(rows, RecordIn(records)), d.requiredTypes);
    verdict := Evaluate(d.id, rows, rules.rule(d.ruleId), stale);
  }

  /** The counts of one safeguard: eligible, assessed, invalid, ambiguous. */
  method CountPopulation(index: Index, ghost events: seq<Event>, counts: map<string, nat>, d: Definition)
    returns (eligible: nat, assessed: nat, invalid: nat, ambiguous: nat)
    requires Indexes(index, events) && CountsTypes(counts, events)
    ensures eligible == EligibleCount(events, d) && assessed == AssessedCount(events, d)
    ensures invalid == InvalidCount(events, d) && ambiguous == AmbiguousCount(events, d)
  {
    var types := Eligible(d);
    eligible := SumEligible(counts, DistinctTypes(d.assetTypes), events);
    FilterSame(index.order, AmbiguousIn(index, types), Ambiguous(events, types));
    ambiguous := |Filter(index.order, AmbiguousIn(index, types))|;
    FilterSame(OrderIn(index, d.id), ApplicableIn(index, types), Applicable(events, types));
    assessed := |Filter(OrderIn(index, d.id), ApplicableIn(index, types))|;
    invalid := |OrderIn(index, d.id)| - assessed;
  }

  /** The loop body over safeguards: asset results in key order, and the safeguard's own row. */
  method JudgeSafeguard(rules: Rules, index: Index, ghost events: seq<Event>, records: map<(string, string), Freshness.Record>,
                        counts: map<string, nat>, d: Definition) returns (result: SafeguardResult, assets: seq<AssetResult>)
    requires Indexes(index, events) && records == FreshnessMap(events) && CountsTypes(counts, events)
    ensures result == SafeguardOf(rules, events, d)
    ensures assets == AssetResults(rules, events, d)
  {
    var eligible, assessed, invalid, ambiguous := CountPopulation(index, events, counts, d);
    assets := JudgeAssets(rules, index, events, records, d);
    var states := StatusesOf(assets);
    result := Assemble(rules, events, d, assets, states, eligible, assessed, invalid, ambiguous);
  }

  method Assemble(ghost rules: Rules, ghost events: seq<Event>, d: Definition, ghost assets: seq<AssetResult>, bound: seq<Verdict>,
                  eligible: nat, assessed: nat, invalid: nat, ambiguous: nat) returns (result: SafeguardResult)
    requires assets == AssetResults(rules, events, d)
    requires |bound| == |assets| && forall j :: 0 <= j < |assets| ==> bound[j] == assets[j].status
    requires eligible == EligibleCount(events, d) && assessed == AssessedCount(events, d)
    requires invalid == InvalidCount(events, d) && ambiguous == AmbiguousCount(events, d)
    ensures result == SafeguardOf(rules, events, d)
  {
    StatusesAreVerdicts(rules, events, d, bound);
    var missing := if eligible > assessed then eligible - assessed else 0;
    var states := bound + if missing > 0 || ambiguous > 0 || invalid > 0 then [NotEvaluated] else [];
    result := SafeguardResult(d.id, d.title, Combine(states), eligible, assessed, missing, invalid);
  }

  method JudgeAssets(rules: Rules, index: Index, ghost events: seq<Event>, records: map<(string, string), Freshness.Record>,
                     d: Definition) returns (assets: seq<AssetResult>)
    requires Indexes(index, events) && records == FreshnessMap(events)
    ensures assets == AssetResults(rules, events, d)
  {
    assets := [];
    var order := SortBy(OrderIn(index, d.id), KeyLe);
    ghost var all := AssetResults(rules, events, d);
    SortedOrder(rules, index, events, d);
    for i := 0 to |order|
      invariant assets == all[..i]
    {
      var asset := JudgeAssetResult(rules, index, events, records, d, order[i], i);
      ExtendPrefix(assets, all, i, asset);
      assets := assets + [asset];
    }
  }

  lemma SortedOrder(rules: Rules, index: Index, events: seq<Event>, d: Definition)
    requires OrdersIndexed(index, events)
    ensures SortBy(OrderIn(index, d.id), KeyLe) == SortedBound(events, d.id)
    ensures |AssetResults(rules, events, d)| == |SortedBound(events, d.id)|
  {
  }

  /** The `states` list that the same loop fills. */
  method StatusesOf(assets: seq<AssetResult>) returns (states: seq<Verdict>)
    ensures |states| == |assets| && forall j :: 0 <= j < |assets| ==> states[j] == assets[j].status
  {
    states := [];
    for i := 0 to |assets|
      invariant |states| == i && forall j :: 0 <= j < i ==> states[j] == assets[j].status
    {
      states := states + [assets[i].status];
    }
  }

  lemma StatusesAreVerdicts(rules: Rules, events: seq<Event>, d: Definition, states: seq<Verdict>)
    requires var assets := AssetResults(rules, events, d);
             |states| == |assets| && forall j :: 0 <= j < |assets| ==> states[j] == assets[j].status
    ensures states == BoundVerdicts(rules, events, d)
  {
  }

  lemma ExtendPrefix<T>(s: seq<T>, all: seq<T>, i: nat, x: T)
    requires i < |all| && s == all[..i] && x == all[i]
    ensures s + [x] == all[..i + 1]
  {
  }

  method JudgeAssetResult(rules: Rules, index: Index, ghost events: seq<Event>, records: map<(string, string), Freshness.Record>,
                          d: Definition, a: AssetKey, ghost i: nat) returns (result: AssetResult)
    requires Indexes(index, events) && records == FreshnessMap(events)
    requires i < |SortedBound(events, d.id)| && a == SortedBound(events, d.id)[i]
    ensures result == AssetResults(rules, events, d)[i]
  {
    var verdict := JudgeAsset(rules, index, events, records, d, a);
    var rows := RowsIn(index, d.id, a);
    result := AssetResult(d.id, a, verdict.status, set e | e in rows :: e.eventId, set e | e in rows :: e.rawSha256, verdict.reasons);
  }
}
