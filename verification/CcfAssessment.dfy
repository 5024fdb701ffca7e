/** The whole safeguard assessment: what it reports, and that evidence order cannot change it (ccf_evaluation.py). */
module CcfAssessment {
  import opened Outcomes
  import opened Dicts
  import opened Orders
  import opened Text
  import opened ControlVerdicts
  import opened CcfEvaluation
  import opened CcfMeaning
  import opened CcfOrderBlindness
  import opened CcfEvaluator
  import Freshness = EvidenceFreshness

  datatype Assessment = Assessment(assets: nat, ambiguous: nat, verified: bool, safeguards: seq<SafeguardResult>,
                                   assetResults: seq<AssetResult>, requirements: seq<RequirementResult>)

  /** The raised errors. Without any safeguard the last loop variable `ambiguous_count` is never bound. */
  datatype EvaluationError = UnknownSafeguard | UnboundAmbiguousCount

  function IdOf(d: Definition): string { d.id }

  /** `{row["safeguard_id"]: row ...}`: a repeated id keeps its place and takes the later row. */
  function Dict(payload: seq<Definition>): seq<Definition> { PutAll([], payload, IdOf) }

  function Ids(definitions: seq<Definition>): set<string> { set d | d in definitions :: d.id }

  lemma DictUnique(payload: seq<Definition>)
    ensures OnePerKey(Dict(payload), IdOf)
  {
    PutAllOnePerKey(payload, IdOf);
    var dict := Dict(payload);
    assert forall i, j :: 0 <= i < j < |dict| ==> IdOf(dict[i]) != IdOf(dict[j]);
  }

  predicate ControlLe(a: Control, b: Control) { StrLe(a.id, b.id) }

  ghost function AllAssetResults(rules: Rules, events: seq<Event>, definitions: seq<Definition>): seq<AssetResult>
  {
    if definitions == [] then []
    else
      var n := |definitions| - 1;
      AllAssetResults(rules, events, definitions[..n]) + AssetResults(rules, events, definitions[n])
  }

  ghost function SafeguardFor(rules: Rules, events: seq<Event>): Definition -> SafeguardResult
  {
    (d: Definition) => SafeguardOf(rules, events, d)
  }

  ghost function RequirementFor(rules: Rules, events: seq<Event>, definitions: seq<Definition>, verified: bool): Control -> RequirementResult
  {
    (c: Control) => RequirementOf(rules, events, definitions, c, verified)
  }

  ghost predicate AllKnown(events: seq<Event>, definitions: seq<Definition>)
  {
    forall e :: e in events ==> Known(e.safeguardIds, Ids(definitions))
  }

  /** What is reported. The ambiguous count is the one left by the last safeguard. */
  ghost function Report(rules: Rules, events: seq<Event>, definitions: seq<Definition>, controls: seq<Control>, verified: bool): Assessment
    requires definitions != []
  {
    Assessment(|AssetOrder(events)|, AmbiguousCount(events, definitions[|definitions| - 1]), verified,
               Map(definitions, SafeguardFor(rules, events)), AllAssetResults(rules, events, definitions),
               Map(SortBy(controls, ControlLe), RequirementFor(rules, events, definitions, verified)))
  }

  /** `evaluate_safeguards` */
  ghost function Assess(rules: Rules, events: seq<Event>, payload: seq<Definition>, controls: seq<Control>, verified: bool)
    : Result<Assessment, EvaluationError>
  {
    var definitions := Dict(payload);
    if !AllKnown(events, definitions) then Err(UnknownSafeguard)
    else if definitions == [] then Err(UnboundAmbiguousCount)
    else Ok(Report(rules, events, definitions, controls, verified))
  }

  /** Evidence in another order gives the same assessment, or the same error. */
  lemma AssessmentIgnoresOrder(rules: Rules, a: seq<Event>, b: seq<Event>, payload: seq<Definition>, controls: seq<Control>, verified: bool)
    requires Reordered(a, b)
    ensures Assess(rules, a, payload, controls, verified) == Assess(rules, b, payload, controls, verified)
  {
    var definitions := Dict(payload);
    SameMembers(a, b);
    SameAssets(a, b);
    MultisetMembers(AssetOrder(a), AssetOrder(b));
    if definitions != [] { SameCounts(a, b, definitions[|definitions| - 1]); }
    AllAssetResultsIgnoreOrder(rules, a, b, definitions);
    SafeguardListIgnoresOrder(rules, a, b, definitions);
    RequirementListIgnoresOrder(rules, a, b, definitions, SortBy(controls, ControlLe), verified);
    assert AllKnown(a, definitions) == AllKnown(b, definitions);
  }

  lemma SafeguardListIgnoresOrder(rules: Rules, a: seq<Event>, b: seq<Event>, definitions: seq<Definition>)
    requires Reordered(a, b)
    ensures Map(definitions, SafeguardFor(rules, a)) == Map(definitions, SafeguardFor(rules, b))
  {
    forall d ensures SafeguardFor(rules, a)(d) == SafeguardFor(rules, b)(d) { SafeguardsIgnoreOrder(rules, a, b, d); }
    MapSame(definitions, SafeguardFor(rules, a), SafeguardFor(rules, b));
  }

  lemma RequirementListIgnoresOrder(rules: Rules, a: seq<Event>, b: seq<Event>, definitions: seq<Definition>, controls: seq<Control>, verified: bool)
    requires Reordered(a, b)
    ensures Map(controls, RequirementFor(rules, a, definitions, verified)) == Map(controls, RequirementFor(rules, b, definitions, verified))
  {
    forall c ensures RequirementFor(rules, a, definitions, verified)(c) == RequirementFor(rules, b, definitions, verified)(c) {
      RequirementsIgnoreOrder(rules, a, b, definitions, c, verified);
    }
    MapSame(controls, RequirementFor(rules, a, definitions, verified), RequirementFor(rules, b, definitions, verified));
  }

  lemma MapSame<T(!new), U>(s: seq<T>, f: T -> U, g: T -> U)
    requires forall x :: f(x) == g(x)
    ensures Map(s, f) == Map(s, g)
  {
  }

  lemma {:induction false} AllAssetResultsIgnoreOrder(rules: Rules, a: seq<Event>, b: seq<Event>, definitions: seq<Definition>)
    requires Reordered(a, b)
    ensures AllAssetResults(rules, a, definitions) == AllAssetResults(rules, b, definitions)
  {
    if definitions != [] {
      var n := |definitions| - 1;
      AllAssetResultsIgnoreOrder(rules, a, b, definitions[..n]);
      SafeguardsIgnoreOrder(rules, a, b, definitions[n]);
    }
  }

  // --------------------------------------------------------- on the members

  /** Some observed assets. */
  ghost function ObservedAssets(events: seq<Event>): set<AssetKey> { set e | e in events :: AssetKey(e.tenant, e.assetId) }

  /** The assets observed under several types, one of which the safeguard names. */
  ghost function AmbiguousAssets(events: seq<Event>, d: Definition): set<AssetKey>
  {
    set e, other | && e in events && other in events && SameAsset(e, other)
                   && e.assetType != other.assetType && e.assetType in d.assetTypes :: AssetKey(e.tenant, e.assetId)
  }

  lemma AmbiguousSize(events: seq<Event>, d: Definition)
    ensures AmbiguousCount(events, d) == |AmbiguousAssets(events, d)|
  {
    AssetOrderFacts(events);
    FilterDistinct(AssetOrder(events), Ambiguous(events, Eligible(d)));
    forall a ensures a in AmbiguousAssets(events, d) <==> a in Filter(AssetOrder(events), Ambiguous(events, Eligible(d))) {
      AmbiguousAsset(events, d, a);
    }
    ListedSize(Filter(AssetOrder(events), Ambiguous(events, Eligible(d))), AmbiguousAssets(events, d));
  }

  lemma AmbiguousAsset(events: seq<Event>, d: Definition, a: AssetKey)
    ensures a in AmbiguousAssets(events, d) <==> a in AssetOrder(events) && Ambiguous(events, Eligible(d))(a)
  {
    AssetOrderFacts(events);
    var types := Types(events, a);
    if e, other :| && e in events && other in events && SameAsset(e, other) && e.assetType != other.assetType && e.assetType in d.assetTypes
                   && AssetKey(e.tenant, e.assetId) == a {
      assert e.assetType in types && other.assetType in types;
      if |types| == 1 { Singleton(types, e.assetType); }
      assert e.assetType in types * Eligible(d);
    }
    if a in AssetOrder(events) && Ambiguous(events, Eligible(d))(a) {
      var t :| t in types * Eligible(d);
      var e :| e in events && KeyOf(e) == a && e.assetType == t;
      AnotherMember(types, t);
      var u :| u in types && u != t;
      var other :| other in events && KeyOf(other) == a && other.assetType == u;
      assert SameAsset(e, other);
    }
  }

  lemma AnotherMember(types: set<string>, t: string)
    requires t in types && |types| != 1
    ensures exists u :: u in types && u != t
  {
    assert types == {t} + (types - {t});
    if types - {t} != {} {
      var u :| u in types - {t};
    }
  }

  /** Of the safeguards of one id the last one counts, in the place of the first. */
  lemma {:induction false} DictMeaning(payload: seq<Definition>)
    ensures OnePerKey(Dict(payload), IdOf)
    ensures forall d :: d in Dict(payload) <==> LastOfId(payload, d)
  {
    DictUnique(payload);
    if payload != [] {
      var n := |payload| - 1;
      DictMeaning(payload[..n]);
      PutMembers(Dict(payload[..n]), payload[n], IdOf);
      forall d ensures LastOfId(payload, d) <==> if d.id == payload[n].id then d == payload[n] else LastOfId(payload[..n], d) {
        LastOfIdNext(payload, n, d);
      }
    }
  }

  ghost predicate LastOfId(payload: seq<Definition>, d: Definition)
  {
    exists k :: 0 <= k < |payload| && payload[k] == d && forall l :: k < l < |payload| ==> payload[l].id != d.id
  }

  lemma LastOfIdNext(payload: seq<Definition>, n: nat, d: Definition)
    requires |payload| == n + 1
    ensures LastOfId(payload, d) <==> if d.id == payload[n].id then d == payload[n] else LastOfId(payload[..n], d)
  {
    if d.id != payload[n].id {
      if LastOfId(payload[..n], d) {
        var k :| 0 <= k < n && payload[..n][k] == d && forall l :: k < l < n ==> payload[..n][l].id != d.id;
        assert payload[k] == d && forall l :: k < l < n ==> payload[l] == payload[..n][l];
      }
      if LastOfId(payload, d) {
        var k :| 0 <= k < |payload| && payload[k] == d && forall l :: k < l < |payload| ==> payload[l].id != d.id;
        assert payload[..n][k] == d;
      }
    }
  }

  /** The assessment raises for an id that no safeguard has, and otherwise for the lack of any safeguard. */
  lemma AssessErrors(rules: Rules, events: seq<Event>, payload: seq<Definition>, controls: seq<Control>, verified: bool)
    ensures var r := Assess(rules, events, payload, controls, verified);
            && (r == Err(UnknownSafeguard) <==>
                  exists e, id :: e in events && id in e.safeguardIds && forall d :: d in payload ==> d.id != id)
            && (r == Err(UnboundAmbiguousCount) <==> payload == [] && forall e :: e in events ==> e.safeguardIds == [])
            && (r.Ok? ==> Dict(payload) != [] && r.value == Report(rules, events, Dict(payload), controls, verified))
  {
    KnownMeaning(events, payload);
    EmptyMeaning(events, payload);
  }

  /** The report counts the assets, and the ambiguous ones as the last safeguard sees them, has the safeguards in their order and
      one row per control, by control id. */
  lemma ReportMeaning(rules: Rules, events: seq<Event>, definitions: seq<Definition>, controls: seq<Control>, verified: bool)
    requires definitions != []
    ensures var r := Report(rules, events, definitions, controls, verified);
            && r.assets == |ObservedAssets(events)| && r.verified == verified
            && r.ambiguous == |AmbiguousAssets(events, definitions[|definitions| - 1])|
            && |r.safeguards| == |definitions|
            && (forall i :: 0 <= i < |definitions| ==> r.safeguards[i] == SafeguardOf(rules, events, definitions[i]))
            && RequirementsInOrder(rules, events, definitions, controls, verified, r.requirements)
  {
    AmbiguousSize(events, definitions[|definitions| - 1]);
    AssetOrderFacts(events);
    ListedSize(AssetOrder(events), ObservedAssets(events));
    ControlsInOrder(rules, events, definitions, controls, verified);
  }

  lemma EmptyMeaning(events: seq<Event>, payload: seq<Definition>)
    ensures Dict(payload) == [] <==> payload == []
    ensures payload == [] && AllKnown(events, Dict(payload)) <==> payload == [] && forall e :: e in events ==> e.safeguardIds == []
  {
    if payload != [] {
      DictMeaning(payload);
      assert LastOfId(payload, payload[|payload| - 1]);
    }
    forall e | e in events && e.safeguardIds != [] ensures e.safeguardIds[0] in e.safeguardIds {}
  }

  ghost predicate RequirementsInOrder(rules: Rules, events: seq<Event>, payload: seq<Definition>, controls: seq<Control>, verified: bool,
                                      rows: seq<RequirementResult>)
  {
    && |rows| == |controls|
    && (forall row :: row in rows <==> exists c :: c in controls && row == RequirementOf(rules, events, payload, c, verified))
    && forall i, j :: 0 <= i < j < |rows| ==> StrLe(rows[i].controlId, rows[j].controlId)
  }

  lemma KnownMeaning(events: seq<Event>, payload: seq<Definition>)
    ensures AllKnown(events, Dict(payload)) <==>
            forall e, id :: e in events && id in e.safeguardIds ==> exists d :: d in payload && d.id == id
  {
    forall id ensures id in Ids(Dict(payload)) <==> exists d :: d in payload && d.id == id {
      IdStays(payload, id);
    }
  }

  lemma {:induction false} IdStays(payload: seq<Definition>, id: string)
    ensures id in Ids(Dict(payload)) <==> exists d :: d in payload && d.id == id
  {
    if payload != [] {
      var n := |payload| - 1;
      IdStays(payload[..n], id);
      DictUnique(payload[..n]);
      PutMembers(Dict(payload[..n]), payload[n], IdOf);
      assert payload == payload[..n] + [payload[n]];
      if id == payload[n].id { assert payload[n] in Dict(payload); }
    }
  }

  lemma ControlsInOrder(rules: Rules, events: seq<Event>, payload: seq<Definition>, controls: seq<Control>, verified: bool)
    ensures RequirementsInOrder(rules, events, payload, controls, verified,
                                Map(SortBy(controls, ControlLe), RequirementFor(rules, events, payload, verified)))
  {
    var sorted := SortBy(controls, ControlLe);
    StrLeIsOrder();
    assert TotalPreorder(ControlLe);
    SortIsSorted(controls, ControlLe);
    MultisetMembers(sorted, controls);
    forall row ensures row in Map(sorted, RequirementFor(rules, events, payload, verified))
                       <==> exists c :: c in controls && row == RequirementOf(rules, events, payload, c, verified) {
      MapMembers(sorted, RequirementFor(rules, events, payload, verified), row);
    }
    forall i, j | 0 <= i < j < |sorted| ensures StrLe(sorted[i].id, sorted[j].id) {
      assert ControlLe(sorted[i], sorted[j]);
    }
  }

  // ------------------------------------------------------------- the program

  function RowsOfAssetsIn(index: Index, id: string, assets: seq<AssetKey>): seq<Event>
  {
    if assets == [] then []
    else RowsOfAssetsIn(index, id, assets[..|assets| - 1]) + RowsIn(index, id, assets[|assets| - 1])
  }

  function RequirementRowsIn(index: Index, reviewed: seq<Definition>): seq<Event>
  {
    if reviewed == [] then []
    else
      var n := |reviewed| - 1;
      RequirementRowsIn(index, reviewed[..n]) + RowsOfAssetsIn(index, reviewed[n].id, OrderIn(index, reviewed[n].id))
  }

  lemma {:induction false} RowsOfAssetsAgree(index: Index, events: seq<Event>, id: string, assets: seq<AssetKey>)
    requires RowsIndexed(index, events)
    ensures RowsOfAssetsIn(index, id, assets) == RowsOfAssets(events, id, assets)
  {
    if assets != [] { RowsOfAssetsAgree(index, events, id, assets[..|assets| - 1]); }
  }

  lemma {:induction false} RequirementRowsAgree(index: Index, events: seq<Event>, reviewed: seq<Definition>)
    requires Indexes(index, events)
    ensures RequirementRowsIn(index, reviewed) == RequirementRows(events, reviewed)
  {
    if reviewed != [] {
      var n := |reviewed| - 1;
      RequirementRowsAgree(index, events, reviewed[..n]);
      RowsOfAssetsAgree(index, events, reviewed[n].id, BoundOrder(events, reviewed[n].id));
    }
  }

  ghost predicate HoldsStatuses(statuses: map<string, Verdict>, rules: Rules, events: seq<Event>, definitions: seq<Definition>)
  {
    forall d :: d in definitions ==> d.id in statuses && statuses[d.id] == SafeguardOf(rules, events, d).status
  }

  lemma {:induction false} ReviewedAreDefinitions(definitions: seq<Definition>, controlId: string)
    ensures forall d :: d in Reviewed(definitions, controlId) ==> d in definitions
  {
    if definitions != [] {
      var n := |definitions| - 1;
      ReviewedAreDefinitions(definitions[..n], controlId);
      assert definitions == definitions[..n] + [definitions[n]];
    }
  }

  /** `[by_id[sid] for sid in reviewed]` */
  method StatusesById(statuses: map<string, Verdict>, reviewed: seq<Definition>, ghost rules: Rules, ghost events: seq<Event>)
    returns (states: seq<Verdict>)
    requires HoldsStatuses(statuses, rules, events, reviewed)
    ensures states == ReviewedStatuses(rules, events, reviewed)
  {
    states := [];
    ghost var all := ReviewedStatuses(rules, events, reviewed);
    for i := 0 to |reviewed|
      invariant |all| == |reviewed| && states == all[..i]
    {
      StatusHeld(statuses, rules, events, reviewed, i);
      ExtendPrefix(states, all, i, statuses[reviewed[i].id]);
      states := states + [statuses[reviewed[i].id]];
    }
  }

  lemma StatusHeld(statuses: map<string, Verdict>, rules: Rules, events: seq<Event>, reviewed: seq<Definition>, i: nat)
    requires HoldsStatuses(statuses, rules, events, reviewed) && i < |reviewed|
    ensures reviewed[i].id in statuses && statuses[reviewed[i].id] == ReviewedStatuses(rules, events, reviewed)[i]
  {
    assert reviewed[i] in reviewed;
  }

  /** The loop body over controls. */
  method JudgeRequirement(ghost rules: Rules, index: Index, ghost events: seq<Event>, records: map<(string, string), Freshness.Record>,
                          definitions: seq<Definition>, statuses: map<string, Verdict>, control: Control, verified: bool)
    returns (result: RequirementResult)
    requires Indexes(index, events) && records == FreshnessMap(events)
    requires HoldsStatuses(statuses, rules, events, definitions)
    ensures result == RequirementOf(rules, events, definitions, control, verified)
  {
    var reviewed, pending := Reviewed(definitions, control.id), Pending(definitions, control.id);
    ReviewedAreDefinitions(definitions, control.id);
    var states := StatusesById(statuses, reviewed, rules, events);
    var stale := JudgeStaleness(index, events, records, reviewed, control.requiredTypes);
    states := states + (if stale then [Stale] else []) + if pending > 0 || !verified then [NotEvaluated] else [];
    result := RequirementResult(control.id, control.framework,
                                if reviewed == [] && pending == 0 then Unmapped else Settled(Combine(states)),
                                multiset(Map(reviewed, (d: Definition) => d.id)), pending);
  }

  method JudgeStaleness(index: Index, ghost events: seq<Event>, records: map<(string, string), Freshness.Record>,
                        reviewed: seq<Definition>, required: set<string>) returns (stale: bool)
    requires Indexes(index, events) && records == FreshnessMap(events)
    ensures stale == RequirementStale(events, reviewed, required)
  {
    stale := false;
    if reviewed != [] && required != {} {
      RequirementRowsAgree(index, events, reviewed);
      stale := Freshness.CurrentEvidenceIsStale(Map(RequirementRowsIn(index, reviewed), RecordIn(records)), required);
    }
  }

  /** The loop over safeguards, with `by_id` filled alongside. */
  method JudgeSafeguards(rules: Rules, index: Index, ghost events: seq<Event>, records: map<(string, string), Freshness.Record>,
                         counts: map<string, nat>, definitions: seq<Definition>)
    returns (safeguards: seq<SafeguardResult>, assets: seq<AssetResult>, statuses: map<string, Verdict>)
    requires Indexes(index, events) && records == FreshnessMap(events) && CountsTypes(counts, events)
    requires OnePerKey(definitions, IdOf)
    ensures safeguards == Map(definitions, SafeguardFor(rules, events))
    ensures assets == AllAssetResults(rules, events, definitions)
    ensures HoldsStatuses(statuses, rules, events, definitions)
  {
    safeguards, assets, statuses := [], [], map[];
    for i := 0 to |definitions|
      invariant safeguards == Map(definitions[..i], SafeguardFor(rules, events))
      invariant assets == AllAssetResults(rules, events, definitions[..i])
      invariant HoldsStatuses(statuses, rules, events, definitions[..i])
    {
      var result, more := JudgeSafeguard(rules, index, events, records, counts, definitions[i]);
      SafeguardStep(rules, events, definitions, i);
      AssetRowsStep(rules, events, definitions, i);
      StatusStep(rules, events, definitions, i, statuses);
      safeguards, assets, statuses := safeguards + [result], assets + more, statuses[definitions[i].id := result.status];
    }
    assert definitions[..|definitions|] == definitions;
  }

  lemma SafeguardStep(rules: Rules, events: seq<Event>, definitions: seq<Definition>, i: nat)
    requires i < |definitions|
    ensures Map(definitions[..i + 1], SafeguardFor(rules, events))
         == Map(definitions[..i], SafeguardFor(rules, events)) + [SafeguardOf(rules, events, definitions[i])]
  {
    TakeNext(definitions, i);
    MapAppend(definitions[..i], [definitions[i]], SafeguardFor(rules, events));
  }

  lemma AssetRowsStep(rules: Rules, events: seq<Event>, definitions: seq<Definition>, i: nat)
    requires i < |definitions|
    ensures AllAssetResults(rules, events, definitions[..i + 1])
         == AllAssetResults(rules, events, definitions[..i]) + AssetResults(rules, events, definitions[i])
  {
    TakeNext(definitions, i);
  }

  lemma StatusStep(rules: Rules, events: seq<Event>, definitions: seq<Definition>, i: nat, statuses: map<string, Verdict>)
    requires i < |definitions| && OnePerKey(definitions, IdOf) && HoldsStatuses(statuses, rules, events, definitions[..i])
    ensures HoldsStatuses(statuses[definitions[i].id := SafeguardOf(rules, events, definitions[i]).status], rules, events, definitions[..i + 1])
  {
    var d := definitions[i];
    forall x | x in definitions[..i + 1]
      ensures x == d || (x.id != d.id && x.id in statuses && statuses[x.id] == SafeguardOf(rules, events, x).status)
    {
      var j :| 0 <= j < i + 1 && definitions[j] == x;
      if j < i { assert x in definitions[..i]; }
    }
  }

  method JudgeRequirements(ghost rules: Rules, index: Index, ghost events: seq<Event>, records: map<(string, string), Freshness.Record>,
                           definitions: seq<Definition>, statuses: map<string, Verdict>, controls: seq<Control>, verified: bool)
    returns (requirements: seq<RequirementResult>)
    requires Indexes(index, events) && records == FreshnessMap(events)
    requires HoldsStatuses(statuses, rules, events, definitions)
    ensures requirements == Map(controls, RequirementFor(rules, events, definitions, verified))
  {
    requirements := [];
    for i := 0 to |controls|
      invariant |requirements| == i
      invariant forall j :: 0 <= j < i ==> requirements[j] == RequirementFor(rules, events, definitions, verified)(controls[j])
    {
      var result := JudgeRequirement(rules, index, events, records, definitions, statuses, controls[i], verified);
      requirements := requirements + [result];
    }
  }

  /** `evaluate_safeguards` */
  method EvaluateSafeguards(rules: Rules, events: seq<Event>, payload: seq<Definition>, controls: seq<Control>, verified: bool)
    returns (result: Result<Assessment, EvaluationError>)
    ensures result == Assess(rules, events, payload, controls, verified)
  {
    var definitions := Dict(payload);
    DictUnique(payload);
    var indexed := IndexEvents(events, Ids(definitions));
    if indexed.None? {
      result := Err(UnknownSafeguard);
    } else if definitions == [] {
      result := Err(UnboundAmbiguousCount);
    } else {
      var report := EvaluateIndexed(rules, indexed.value, events, definitions, controls, verified);
      result := Ok(report);
    }
  }

  /** The passes after the events have been indexed. */
  method EvaluateIndexed(rules: Rules, index: Index, events: seq<Event>, definitions: seq<Definition>, controls: seq<Control>, verified: bool)
    returns (report: Assessment)
    requires Indexes(index, events) && definitions != [] && OnePerKey(definitions, IdOf)
    ensures report == Report(rules, events, definitions, controls, verified)
  {
    var records := FreshnessMap(events);
    var counts := CountTypes(index, events);
    var safeguards, assets, statuses := JudgeSafeguards(rules, index, events, records, counts, definitions);
    var _, _, _, ambiguous := CountPopulation(index, events, counts, definitions[|definitions| - 1]);
    var requirements := JudgeRequirements(rules, index, events, records, definitions, statuses, SortBy(controls, ControlLe), verified);
    report := Assessment(|index.order|, ambiguous, verified, safeguards, assets, requirements);
  }
}
