/** Safeguard evaluation over the observed assets, rolled up to requirements (ccf_evaluation.py). */
module CcfEvaluation {
  import opened Dicts
  import opened Orders
  import opened Text
  import opened ControlVerdicts
  import Freshness = EvidenceFreshness

  datatype AssetKey = AssetKey(tenant: string, asset: string)

  datatype ReviewState = MaintainerReviewed | OrgReviewed | Proposed | NeedsChanges | Rejected

  /** A mapping to a requirement: its effective review state and whether its role can establish coverage. */
  datatype Member = Member(controlId: string, state: ReviewState, contributes: bool)

  datatype Definition = Definition(id: string, title: string, assetTypes: seq<string>, requiredTypes: set<string>,
                                   ruleId: string, satisfies: seq<Member>)

  datatype Control = Control(id: string, framework: string, requiredTypes: set<string>)

  /** Any interpretation of the catalog's evaluation rules. */
  datatype Rules = Rules(rule: string -> (Context -> RuleResult))

  datatype SafeguardResult = SafeguardResult(id: string, title: string, status: Verdict, applicable: nat, assessed: nat,
                                             unassessed: nat, invalid: nat)

  /** Event ids and hashes are reported sorted; a set stands for its sorted list. */
  datatype AssetResult = AssetResult(safeguardId: string, asset: AssetKey, status: Verdict, eventIds: set<string>,
                                     hashes: set<string>, reasons: seq<string>)

  datatype RequirementStatus = Unmapped | Settled(verdict: Verdict)

  datatype RequirementResult = RequirementResult(controlId: string, framework: string, status: RequirementStatus,
                                                 reviewed: multiset<string>, pending: nat)

  // --------------------------------------------------------------- the verdicts

  /** `_combine` */
  function Combine(states: seq<Verdict>): Verdict
  {
    if Fail in states then Fail
    else if states == [] || NotEvaluated in states then NotEvaluated
    else if Stale in states then Stale
    else Pass
  }

  function KeyOf(e: Event): AssetKey { AssetKey(e.tenant, e.assetId) }

  predicate KeyLe(a: AssetKey, b: AssetKey)
  {
    if a.tenant != b.tenant then StrLe(a.tenant, b.tenant) else StrLe(a.asset, b.asset)
  }

  lemma KeyOrder()
    ensures TotalPreorder(KeyLe) && Antisymmetric(KeyLe)
  {
    StrLeIsOrder();
  }

  /** Keys of `assets`: the observed assets in order of first appearance. */
  function AssetOrder(events: seq<Event>): seq<AssetKey> { FirstSeen(events, KeyOf) }

  /** `assets[key]`: every type under which the asset was observed. */
  function Types(events: seq<Event>, a: AssetKey): set<string>
  {
    set e | e in events && KeyOf(e) == a :: e.assetType
  }

  function Binds(id: string): Event -> bool { (e: Event) => id in e.safeguardIds }

  function Repeat<T>(x: T, n: nat): seq<T> { seq(n, _ => x) }

  /** `bound[id][a]`: an event once per time it names the safeguard. */
  function BoundRows(events: seq<Event>, id: string, a: AssetKey): seq<Event>
  {
    if events == [] then []
    else
      var n := |events| - 1;
      BoundRows(events[..n], id, a) + if KeyOf(events[n]) == a then Repeat(events[n], multiset(events[n].safeguardIds)[id]) else []
  }

  /** Keys of `bound[id]`, in order of first appearance and sorted. */
  function BoundOrder(events: seq<Event>, id: string): seq<AssetKey> { AssetOrder(Filter(events, Binds(id))) }

  function SortedBound(events: seq<Event>, id: string): seq<AssetKey> { SortBy(BoundOrder(events, id), KeyLe) }

  function Eligible(d: Definition): set<string> { set t | t in d.assetTypes }

  function OnlyType(events: seq<Event>, t: string): AssetKey -> bool { (a: AssetKey) => Types(events, a) == {t} }

  function Applicable(events: seq<Event>, eligible: set<string>): AssetKey -> bool
  {
    (a: AssetKey) => |Types(events, a)| == 1 && Types(events, a) <= eligible
  }

  function Ambiguous(events: seq<Event>, eligible: set<string>): AssetKey -> bool
  {
    (a: AssetKey) => |Types(events, a)| != 1 && Types(events, a) * eligible != {}
  }

  /** The freshness dict lists records by (status, source, event id); the last of one event id stays. */
  function StatusText(s: Freshness.Status): string
  {
    match s case Fresh => "fresh" case Stale => "stale" case Expired => "expired" case Missing => "missing"
  }

  predicate RecordLe(a: Event, b: Event)
  {
    var x, y := StatusText(a.record.status), StatusText(b.record.status);
    if x != y then StrLe(x, y)
    else if a.record.source != b.record.source then StrLe(a.record.source, b.record.source)
    else StrLe(a.eventId, b.eventId)
  }

  function LastWins(events: seq<Event>): map<(string, string), Freshness.Record>
  {
    if events == [] then map[]
    else
      var n := |events| - 1;
      LastWins(events[..n])[(events[n].tenant, events[n].eventId) := events[n].record]
  }

  function FreshnessMap(events: seq<Event>): map<(string, string), Freshness.Record> { LastWins(SortBy(events, RecordLe)) }

  function RecordIn(current: map<(string, string), Freshness.Record>): Event -> Freshness.Record
  {
    (e: Event) => if (e.tenant, e.eventId) in current then current[(e.tenant, e.eventId)] else e.record
  }

  ghost predicate RowsStale(events: seq<Event>, rows: seq<Event>, required: set<string>)
  {
    Freshness.IsStale(Map(rows, RecordIn(FreshnessMap(events))), required)
  }

  /** The verdict of one bound asset. */
  ghost function AssetVerdict(rules: Rules, events: seq<Event>, d: Definition, a: AssetKey): VerdictResult
  {
    if !Applicable(events, Eligible(d))(a) then
      VerdictResult(NotEvaluated, ["The asset type does not establish safeguard applicability."])
    else
      var rows := BoundRows(events, d.id, a);
      Evaluate(d.id, rows, rules.rule(d.ruleId), RowsStale(events, rows, d.requiredTypes))
  }

  ghost function AssetResultOf(rules: Rules, events: seq<Event>, d: Definition, a: AssetKey): AssetResult
  {
    var verdict, rows := AssetVerdict(rules, events, d, a), BoundRows(events, d.id, a);
    AssetResult(d.id, a, verdict.status, set e | e in rows :: e.eventId, set e | e in rows :: e.rawSha256, verdict.reasons)
  }

  ghost function AssetResults(rules: Rules, events: seq<Event>, d: Definition): seq<AssetResult>
  {
    var order := SortedBound(events, d.id);
    seq(|order|, i requires 0 <= i < |order| => AssetResultOf(rules, events, d, order[i]))
  }

  // ---------------------------------------------------------- population counts

  function TypeCount(events: seq<Event>, t: string): nat { |Filter(AssetOrder(events), OnlyType(events, t))| }

  function DistinctTypes(types: seq<string>): seq<string> { FirstSeen(types, (t: string) => t) }

  /** `sum(type_counts[t] for t in eligible_types)` */
  function SumTypes(events: seq<Event>, types: seq<string>): nat
  {
    if types == [] then 0 else SumTypes(events, types[..|types| - 1]) + TypeCount(events, types[|types| - 1])
  }

  function EligibleCount(events: seq<Event>, d: Definition): nat { SumTypes(events, DistinctTypes(d.assetTypes)) }

  function AmbiguousCount(events: seq<Event>, d: Definition): nat { |Filter(AssetOrder(events), Ambiguous(events, Eligible(d)))| }

  function AssessedCount(events: seq<Event>, d: Definition): nat { |Filter(BoundOrder(events, d.id), Applicable(events, Eligible(d)))| }

  function InvalidCount(events: seq<Event>, d: Definition): nat
  {
    |BoundOrder(events, d.id)| - AssessedCount(events, d)
  }

  /** `max(0, eligible_count - assessed)` */
  function MissingCount(events: seq<Event>, d: Definition): nat
  {
    if EligibleCount(events, d) > AssessedCount(events, d) then EligibleCount(events, d) - AssessedCount(events, d) else 0
  }

  ghost function BoundVerdicts(rules: Rules, events: seq<Event>, d: Definition): seq<Verdict>
  {
    Map(SortedBound(events, d.id), StatusOfAsset(rules, events, d))
  }

  ghost function StatusOfAsset(rules: Rules, events: seq<Event>, d: Definition): AssetKey -> Verdict
  {
    (a: AssetKey) => AssetVerdict(rules, events, d, a).status
  }

  ghost function States(rules: Rules, events: seq<Event>, d: Definition): seq<Verdict>
  {
    BoundVerdicts(rules, events, d)
    + if MissingCount(events, d) > 0 || AmbiguousCount(events, d) > 0 || InvalidCount(events, d) > 0 then [NotEvaluated] else []
  }

  ghost function SafeguardOf(rules: Rules, events: seq<Event>, d: Definition): SafeguardResult
  {
    SafeguardResult(d.id, d.title, Combine(States(rules, events, d)), EligibleCount(events, d), AssessedCount(events, d),
                    MissingCount(events, d), InvalidCount(events, d))
  }

  // ------------------------------------------------------------- requirements

  predicate Attestable(s: ReviewState) { s == MaintainerReviewed || s == OrgReviewed }

  predicate LinksTo(m: Member, controlId: string) { m.controlId == controlId && m.state != Rejected && m.contributes }

  /** The members of one safeguard that map to the control. */
  function MemberLinks(members: seq<Member>, controlId: string): seq<ReviewState>
  {
    if members == [] then []
    else
      var n := |members| - 1;
      MemberLinks(members[..n], controlId) + if LinksTo(members[n], controlId) then [members[n].state] else []
  }

  /** `mappings[control_id]`, split: reviewed safeguards (one per reviewed mapping) and pending mappings. */
  function Reviewed(definitions: seq<Definition>, controlId: string): seq<Definition>
  {
    if definitions == [] then []
    else
      var n := |definitions| - 1;
      Reviewed(definitions[..n], controlId)
      + Repeat(definitions[n], |Filter(MemberLinks(definitions[n].satisfies, controlId), Attestable)|)
  }

  function Pending(definitions: seq<Definition>, controlId: string): nat
  {
    if definitions == [] then 0
    else
      var n := |definitions| - 1;
      Pending(definitions[..n], controlId)
      + |Filter(MemberLinks(definitions[n].satisfies, controlId), (s: ReviewState) => !Attestable(s))|
  }

  /** The bound rows of every asset of every reviewed safeguard. */
  function RowsOfAssets(events: seq<Event>, id: string, assets: seq<AssetKey>): seq<Event>
  {
    if assets == [] then []
    else RowsOfAssets(events, id, assets[..|assets| - 1]) + BoundRows(events, id, assets[|assets| - 1])
  }

  function RequirementRows(events: seq<Event>, reviewed: seq<Definition>): seq<Event>
  {
    if reviewed == [] then []
    else
      var n := |reviewed| - 1;
      RequirementRows(events, reviewed[..n]) + RowsOfAssets(events, reviewed[n].id, BoundOrder(events, reviewed[n].id))
  }

  ghost predicate RequirementStale(events: seq<Event>, reviewed: seq<Definition>, required: set<string>)
  {
    reviewed != [] && required != {} && RowsStale(events, RequirementRows(events, reviewed), required)
  }

  ghost function RequirementStates(rules: Rules, events: seq<Event>, definitions: seq<Definition>, control: Control, verified: bool): seq<Verdict>
  {
    var reviewed := Reviewed(definitions, control.id);
    ReviewedStatuses(rules, events, reviewed)
    + (if RequirementStale(events, reviewed, control.requiredTypes) then [Stale] else [])
    + (if Pending(definitions, control.id) > 0 || !verified then [NotEvaluated] else [])
  }

  ghost function RequirementOf(rules: Rules, events: seq<Event>, definitions: seq<Definition>, control: Control, verified: bool): RequirementResult
  {
    var reviewed, pending := Reviewed(definitions, control.id), Pending(definitions, control.id);
    RequirementResult(control.id, control.framework,
                      if reviewed == [] && pending == 0 then Unmapped
                      else Settled(Combine(RequirementStates(rules, events, definitions, control, verified))),
                      multiset(Map(reviewed, (d: Definition) => d.id)), pending)
  }

  // ---------------------------------------------------- facts about populations

  lemma AssetOrderFacts(events: seq<Event>)
    ensures Distinct(AssetOrder(events))
    ensures forall a :: a in AssetOrder(events) <==> exists e :: e in events && KeyOf(e) == a
  {
    FirstSeenFacts(events, KeyOf);
  }

  lemma BoundOrderFacts(events: seq<Event>, id: string)
    ensures Distinct(BoundOrder(events, id))
    ensures forall a :: a in BoundOrder(events, id) <==> exists e :: e in events && KeyOf(e) == a && id in e.safeguardIds
    ensures forall a :: a in BoundOrder(events, id) ==> a in AssetOrder(events)
  {
    AssetOrderFacts(Filter(events, Binds(id)));
    AssetOrderFacts(events);
    forall a ensures a in BoundOrder(events, id) <==> exists e :: e in events && KeyOf(e) == a && id in e.safeguardIds {
      if e :| e in events && KeyOf(e) == a && id in e.safeguardIds {
        assert e in Filter(events, Binds(id));
      }
    }
  }

  lemma {:induction false} BoundRowsFacts(events: seq<Event>, id: string, a: AssetKey, x: Event)
    ensures multiset(BoundRows(events, id, a))[x] == if KeyOf(x) == a then multiset(events)[x] * multiset(x.safeguardIds)[id] else 0
  {
    if events != [] {
      var n := |events| - 1;
      BoundRowsFacts(events[..n], id, a, x);
      BoundRowsStep(events, id, a, x);
      Distribute(multiset(events[..n])[x], multiset(x.safeguardIds)[id]);
    }
  }

  lemma Distribute(c: nat, k: nat)
    ensures (c + 1) * k == c * k + k
  {
  }

  lemma BoundRowsStep(events: seq<Event>, id: string, a: AssetKey, x: Event)
    requires events != []
    ensures var n := |events| - 1;
            && multiset(events)[x] == multiset(events[..n])[x] + (if x == events[n] then 1 else 0)
            && multiset(BoundRows(events, id, a))[x]
               == multiset(BoundRows(events[..n], id, a))[x]
                  + if x == events[n] && KeyOf(x) == a then multiset(x.safeguardIds)[id] else 0
  {
    var n := |events| - 1;
    var times := multiset(events[n].safeguardIds)[id];
    assert events == events[..n] + [events[n]];
    CountAppend(events[..n], [events[n]], x);
    RepeatCount(events[n], times, x);
    CountAppend(BoundRows(events[..n], id, a), if KeyOf(events[n]) == a then Repeat(events[n], times) else [], x);
  }

  lemma {:induction false} RepeatCount<T>(e: T, n: nat, x: T)
    ensures multiset(Repeat(e, n))[x] == if x == e then n else 0
  {
    if n > 0 {
      RepeatCount(e, n - 1, x);
      assert Repeat(e, n) == Repeat(e, n - 1) + [e];
    }
  }

  lemma {:induction false} BoundRowsMembers(events: seq<Event>, id: string, a: AssetKey)
    ensures forall e :: e in BoundRows(events, id, a) <==> e in events && KeyOf(e) == a && id in e.safeguardIds
  {
    if events != [] {
      var n := |events| - 1;
      BoundRowsMembers(events[..n], id, a);
      assert events == events[..n] + [events[n]];
      var times := multiset(events[n].safeguardIds)[id];
      assert times > 0 <==> id in events[n].safeguardIds;
      assert forall e :: e in Repeat(events[n], times) ==> e == events[n];
      if times > 0 { assert Repeat(events[n], times)[0] == events[n]; }
    }
  }

  lemma {:induction false} RowsOfAssetsMembers(events: seq<Event>, id: string, assets: seq<AssetKey>)
    ensures forall e :: e in RowsOfAssets(events, id, assets) <==> e in events && KeyOf(e) in assets && id in e.safeguardIds
  {
    if assets != [] {
      var n := |assets| - 1;
      assert assets == assets[..n] + [assets[n]];
      RowsOfAssetsMembers(events, id, assets[..n]);
      BoundRowsMembers(events, id, assets[n]);
    }
  }

  lemma {:induction false} RequirementRowsMembers(events: seq<Event>, reviewed: seq<Definition>)
    ensures forall e :: e in RequirementRows(events, reviewed) <==> e in events && exists d :: d in reviewed && d.id in e.safeguardIds
  {
    if reviewed != [] {
      var n := |reviewed| - 1;
      assert reviewed == reviewed[..n] + [reviewed[n]];
      RequirementRowsMembers(events, reviewed[..n]);
      BoundOrderFacts(events, reviewed[n].id);
      RowsOfAssetsMembers(events, reviewed[n].id, BoundOrder(events, reviewed[n].id));
      forall e ensures e in RequirementRows(events, reviewed) <==> e in events && exists d :: d in reviewed && d.id in e.safeguardIds {
        if d :| d in reviewed && d.id in e.safeguardIds {
          assert d in reviewed[..n] || d == reviewed[n];
        }
      }
    }
  }

  lemma DistinctTypesFacts(types: seq<string>)
    ensures Distinct(DistinctTypes(types)) && forall t :: t in DistinctTypes(types) <==> t in types
  {
    FirstSeenFacts(types, (t: string) => t);
  }

  function AnyOnlyType(events: seq<Event>, types: seq<string>): AssetKey -> bool
  {
    (a: AssetKey) => |Types(events, a)| == 1 && Types(events, a) <= (set t | t in types)
  }

  /** The per-type counter, summed over the eligible types, counts the assets whose only type is eligible. */
  lemma {:induction false} CounterAgreesWithScan(events: seq<Event>, types: seq<string>)
    requires Distinct(types)
    ensures SumTypes(events, types) == |Filter(AssetOrder(events), AnyOnlyType(events, types))|
  {
    var order := AssetOrder(events);
    if types == [] {
      FilterNone(order, AnyOnlyType(events, types));
    } else {
      var n := |types| - 1;
      CounterAgreesWithScan(events, types[..n]);
      forall a | a in order
        ensures (AnyOnlyType(events, types)(a) <==> AnyOnlyType(events, types[..n])(a) || OnlyType(events, types[n])(a))
                && !(AnyOnlyType(events, types[..n])(a) && OnlyType(events, types[n])(a))
      {
        OneTypeSplit(Types(events, a), types, n);
      }
      FilterDisjoint(order, AnyOnlyType(events, types[..n]), OnlyType(events, types[n]), AnyOnlyType(events, types));
    }
  }

  lemma OneTypeSplit(s: set<string>, types: seq<string>, n: nat)
    requires |types| == n + 1 && Distinct(types)
    ensures |s| == 1 && s <= (set t | t in types) <==> (|s| == 1 && s <= (set t | t in types[..n])) || s == {types[n]}
    ensures !(|s| == 1 && s <= (set t | t in types[..n]) && s == {types[n]})
  {
    assert types == types[..n] + [types[n]];
    if |s| == 1 {
      var t :| t in s;
      Singleton(s, t);
    }
  }

  lemma Singleton(s: set<string>, t: string)
    requires |s| == 1 && t in s
    ensures s == {t}
  {
    SubsetSize({t}, s);
  }

  /** Population accounting of one safeguard: the counter equals the scan, assessed assets never exceed it
      (so `max(0, ..)` never clips), and nothing is missing exactly when every eligible asset has bound evidence. */
  lemma PopulationAccounting(events: seq<Event>, d: Definition)
    ensures EligibleCount(events, d) == |Filter(AssetOrder(events), Applicable(events, Eligible(d)))|
    ensures AssessedCount(events, d) <= EligibleCount(events, d)
    ensures MissingCount(events, d) == EligibleCount(events, d) - AssessedCount(events, d)
    ensures MissingCount(events, d) == 0 <==>
              forall a :: a in AssetOrder(events) && Applicable(events, Eligible(d))(a) ==> a in BoundOrder(events, d.id)
  {
    DistinctTypesFacts(d.assetTypes);
    CounterAgreesWithScan(events, DistinctTypes(d.assetTypes));
    assert (set t | t in DistinctTypes(d.assetTypes)) == Eligible(d);
    var applicable := Applicable(events, Eligible(d));
    FilterSame(AssetOrder(events), AnyOnlyType(events, DistinctTypes(d.assetTypes)), applicable);
    AssetOrderFacts(events);
    BoundOrderFacts(events, d.id);
    var bound, all := Filter(BoundOrder(events, d.id), applicable), Filter(AssetOrder(events), applicable);
    FilterDistinct(BoundOrder(events, d.id), applicable);
    FilterDistinct(AssetOrder(events), applicable);
    DistinctSubset(bound, all);
    if forall a :: a in all ==> a in BoundOrder(events, d.id) {
      DistinctSubset(all, bound);
    }
  }

  // ------------------------------------------------------------- fail closed

  lemma CombineMeaning(states: seq<Verdict>)
    ensures Combine(states) == Pass <==> AllPass(states)
    ensures Combine(states) == Fail <==> Fail in states
    ensures Combine(states) == NotEvaluated <==> Fail !in states && (states == [] || NotEvaluated in states)
  {
    if Combine(states) == Pass {
      forall s | s in states ensures s == Pass {
        assert s == Pass || s == Fail || s == Stale || s == NotEvaluated;
      }
    }
    if states != [] { assert states[0] in states; }
  }

  /** Every observed asset that may be eligible is of one type and bound to the safeguard. */
  ghost predicate PopulationBound(events: seq<Event>, d: Definition)
  {
    forall a :: a in AssetOrder(events) && Types(events, a) * Eligible(d) != {} ==>
      |Types(events, a)| == 1 && a in BoundOrder(events, d.id)
  }

  ghost predicate BindingsApply(events: seq<Event>, d: Definition)
  {
    forall a :: a in BoundOrder(events, d.id) ==> Applicable(events, Eligible(d))(a)
  }

  /** Some asset is bound, the observed population is bound and applicable, and every bound asset passes. */
  ghost predicate FullyAssessed(rules: Rules, events: seq<Event>, d: Definition)
  {
    && BoundOrder(events, d.id) != []
    && PopulationBound(events, d) && BindingsApply(events, d)
    && forall a :: a in BoundOrder(events, d.id) ==> AssetVerdict(rules, events, d, a).status == Pass
  }

  lemma VerdictMembers(rules: Rules, events: seq<Event>, d: Definition, s: Verdict)
    ensures s in BoundVerdicts(rules, events, d) <==> exists a :: a in BoundOrder(events, d.id) && AssetVerdict(rules, events, d, a).status == s
    ensures BoundVerdicts(rules, events, d) == [] <==> BoundOrder(events, d.id) == []
  {
    var sorted, bound := SortedBound(events, d.id), BoundOrder(events, d.id);
    MultisetMembers(sorted, bound);
    MapMembers(sorted, StatusOfAsset(rules, events, d), s);
    assert s in BoundVerdicts(rules, events, d) <==> exists a :: a in sorted && AssetVerdict(rules, events, d, a).status == s;
  }

  ghost predicate Complete(events: seq<Event>, d: Definition)
  {
    MissingCount(events, d) == 0 && AmbiguousCount(events, d) == 0 && InvalidCount(events, d) == 0
  }

  lemma CompletenessMeaning(events: seq<Event>, d: Definition)
    ensures Complete(events, d) <==> PopulationBound(events, d) && BindingsApply(events, d)
  {
    PopulationAccounting(events, d);
    AmbiguousMeaning(events, d);
    InvalidMeaning(events, d);
    forall a | |Types(events, a)| == 1
      ensures Types(events, a) * Eligible(d) != {} <==> Types(events, a) <= Eligible(d)
    {
      var t :| t in Types(events, a);
      Singleton(Types(events, a), t);
    }
  }

  lemma AmbiguousMeaning(events: seq<Event>, d: Definition)
    ensures AmbiguousCount(events, d) == 0 <==>
            forall a :: a in AssetOrder(events) && Types(events, a) * Eligible(d) != {} ==> |Types(events, a)| == 1
  {
    FilterNonempty(AssetOrder(events), Ambiguous(events, Eligible(d)));
    assert forall a :: Ambiguous(events, Eligible(d))(a) <==> |Types(events, a)| != 1 && Types(events, a) * Eligible(d) != {};
  }

  lemma InvalidMeaning(events: seq<Event>, d: Definition)
    ensures InvalidCount(events, d) == 0 <==> BindingsApply(events, d)
  {
    var applicable := Applicable(events, Eligible(d));
    var other := (a: AssetKey) => !applicable(a);
    var all := (a: AssetKey) => true;
    FilterDisjoint(BoundOrder(events, d.id), applicable, other, all);
    FilterAll(BoundOrder(events, d.id), all);
    FilterNonempty(BoundOrder(events, d.id), other);
  }

  /** A safeguard passes exactly when its observed population is fully assessed, and fails exactly when a bound asset fails. */
  lemma SafeguardMeaning(rules: Rules, events: seq<Event>, d: Definition)
    ensures SafeguardOf(rules, events, d).status == Pass <==> FullyAssessed(rules, events, d)
    ensures SafeguardOf(rules, events, d).status == Fail <==>
            exists a :: a in BoundOrder(events, d.id) && AssetVerdict(rules, events, d, a).status == Fail
  {
    var verdicts := BoundVerdicts(rules, events, d);
    CombineMeaning(States(rules, events, d));
    CompletenessMeaning(events, d);
    VerdictMembers(rules, events, d, Fail);
    AllPassMeaning(rules, events, d);
    assert States(rules, events, d) == verdicts + if Complete(events, d) then [] else [NotEvaluated];
    if !Complete(events, d) {
      assert NotEvaluated in States(rules, events, d);
    } else {
      assert States(rules, events, d) == verdicts;
    }
  }

  lemma AllPassMeaning(rules: Rules, events: seq<Event>, d: Definition)
    ensures var verdicts := BoundVerdicts(rules, events, d);
            verdicts != [] && (forall s :: s in verdicts ==> s == Pass) <==>
            BoundOrder(events, d.id) != [] && forall a :: a in BoundOrder(events, d.id) ==> AssetVerdict(rules, events, d, a).status == Pass
  {
    forall s ensures s in BoundVerdicts(rules, events, d) <==> exists a :: a in BoundOrder(events, d.id) && AssetVerdict(rules, events, d, a).status == s {
      VerdictMembers(rules, events, d, s);
    }
    VerdictMembers(rules, events, d, Pass);
    forall a | a in BoundOrder(events, d.id)
      ensures AssetVerdict(rules, events, d, a).status in BoundVerdicts(rules, events, d)
    {
      VerdictMembers(rules, events, d, AssetVerdict(rules, events, d, a).status);
    }
  }

  ghost function ReviewedStatuses(rules: Rules, events: seq<Event>, reviewed: seq<Definition>): seq<Verdict>
  {
    Map(reviewed, StatusOfSafeguard(rules, events))
  }

  ghost function StatusOfSafeguard(rules: Rules, events: seq<Event>): Definition -> Verdict
  {
    (d: Definition) => SafeguardOf(rules, events, d).status
  }

  lemma StatusMembers(rules: Rules, events: seq<Event>, reviewed: seq<Definition>, s: Verdict)
    ensures s in ReviewedStatuses(rules, events, reviewed) <==> exists d :: d in reviewed && SafeguardOf(rules, events, d).status == s
  {
    MapMembers(reviewed, StatusOfSafeguard(rules, events), s);
  }

  lemma PassesThroughReviewed(rules: Rules, events: seq<Event>, definitions: seq<Definition>, control: Control, verified: bool)
    ensures RequirementOf(rules, events, definitions, control, verified).status == Settled(Pass) <==>
            var reviewed := Reviewed(definitions, control.id);
            && verified && Pending(definitions, control.id) == 0 && reviewed != []
            && !RequirementStale(events, reviewed, control.requiredTypes)
            && forall d :: d in reviewed ==> FullyAssessed(rules, events, d)
  {
    var reviewed := Reviewed(definitions, control.id);
    CombineMeaning(RequirementStates(rules, events, definitions, control, verified));
    OnlyStatuses(ReviewedStatuses(rules, events, reviewed), RequirementStale(events, reviewed, control.requiredTypes),
                 Pending(definitions, control.id) > 0 || !verified);
    AllReviewedPass(rules, events, reviewed);
  }

  ghost predicate AllPass(states: seq<Verdict>) { states != [] && forall s :: s in states ==> s == Pass }

  /** One added state that is no pass spoils the requirement. */
  lemma OnlyStatuses(statuses: seq<Verdict>, stale: bool, open: bool)
    ensures AllPass(statuses + (if stale then [Stale] else []) + (if open then [NotEvaluated] else []))
       <==> AllPass(statuses) && !stale && !open
  {
    var states := statuses + (if stale then [Stale] else []) + (if open then [NotEvaluated] else []);
    if stale {
      assert states[|statuses|] == Stale && Stale in states;
    } else if open {
      assert states[|statuses|] == NotEvaluated && NotEvaluated in states;
    } else {
      assert states == statuses;
    }
  }

  lemma AllReviewedPass(rules: Rules, events: seq<Event>, reviewed: seq<Definition>)
    ensures AllPass(ReviewedStatuses(rules, events, reviewed))
       <==> reviewed != [] && forall d :: d in reviewed ==> FullyAssessed(rules, events, d)
  {
    forall d | d in reviewed
      ensures SafeguardOf(rules, events, d).status == Pass <==> FullyAssessed(rules, events, d)
      ensures SafeguardOf(rules, events, d).status in ReviewedStatuses(rules, events, reviewed)
    {
      SafeguardMeaning(rules, events, d);
      StatusMembers(rules, events, reviewed, SafeguardOf(rules, events, d).status);
    }
    forall s | s in ReviewedStatuses(rules, events, reviewed)
      ensures exists d :: d in reviewed && SafeguardOf(rules, events, d).status == s
    {
      StatusMembers(rules, events, reviewed, s);
    }
  }

  lemma FailsThroughReviewed(rules: Rules, events: seq<Event>, definitions: seq<Definition>, control: Control, verified: bool)
    ensures RequirementOf(rules, events, definitions, control, verified).status == Settled(Fail) <==>
            exists d, a :: d in Reviewed(definitions, control.id) && a in BoundOrder(events, d.id)
                           && AssetVerdict(rules, events, d, a).status == Fail
  {
    var states := RequirementStates(rules, events, definitions, control, verified);
    CombineMeaning(states);
    StatusMembers(rules, events, Reviewed(definitions, control.id), Fail);
    forall d | d in Reviewed(definitions, control.id)
      ensures SafeguardOf(rules, events, d).status == Fail <==>
              exists a :: a in BoundOrder(events, d.id) && AssetVerdict(rules, events, d, a).status == Fail
    {
      SafeguardMeaning(rules, events, d);
    }
  }

  /** What a pass of a bound asset says about its evidence. */
  lemma AssetPassMeans(rules: Rules, events: seq<Event>, d: Definition, a: AssetKey)
    requires AssetVerdict(rules, events, d, a).status == Pass
    ensures Applicable(events, Eligible(d))(a)
    ensures !RowsStale(events, BoundRows(events, d.id, a), d.requiredTypes)
    ensures exists e :: e in events && KeyOf(e) == a && d.id in e.safeguardIds
                        && OutcomeOf(e) in {Failing, Passing} && e.hasRef && e.available
    ensures forall e :: e in events && KeyOf(e) == a && d.id in e.safeguardIds ==> OutcomeOf(e) != Unknown
  {
    var rows := BoundRows(events, d.id, a);
    BoundRowsMembers(events, d.id, a);
    PassIff(d.id, rows, rules.rule(d.ruleId), RowsStale(events, rows, d.requiredTypes));
    var e :| e in rows && OutcomeOf(e) != Observed && e.hasRef && e.available;
    assert OutcomeOf(e) in {Failing, Passing};
  }
}
