/** What the reported `ambiguous_asset_count` means (ccf_evaluation.py). */
module CcfAmbiguity {
  import opened Outcomes
  import opened Orders
  import opened Dicts
  import opened ControlVerdicts
  import opened CcfEvaluation
  import opened CcfEvaluator
  import opened CcfAssessment
  import Freshness = EvidenceFreshness

  /** The asset was observed under more than one type. */
  function MultiTyped(events: seq<Event>): AssetKey -> bool { (a: AssetKey) => |Types(events, a)| > 1 }

  function Last(payload: seq<Definition>): Definition
    requires payload != []
  {
    var definitions := Dict(payload);
    PutAllNonempty(payload);
    definitions[|definitions| - 1]
  }

  lemma PutAllNonempty(payload: seq<Definition>)
    ensures Dict(payload) == [] <==> payload == []
  {
    if payload != [] {
      assert |Dict(payload)| > 0;
    }
  }

  /** Some several-typed asset cannot belong to the last safeguard under any of its types. */
  ghost predicate OutsideLast(events: seq<Event>, last: Definition)
  {
    exists a :: a in AssetOrder(events) && MultiTyped(events)(a) && Types(events, a) * Eligible(last) == {}
  }

  lemma ObservedHasType(events: seq<Event>, a: AssetKey)
    requires a in AssetOrder(events)
    ensures |Types(events, a)| >= 1
  {
    AssetOrderFacts(events);
    var e :| e in events && KeyOf(e) == a;
    assert e.assetType in Types(events, a);
    assert {e.assetType} <= Types(events, a);
    SubsetSize({e.assetType}, Types(events, a));
  }

  /** A filter that keeps less keeps as many exactly when it keeps the same. */
  lemma {:induction false} SameCountIff<T(!new)>(s: seq<T>, p: T -> bool, q: T -> bool)
    requires forall x :: x in s && p(x) ==> q(x)
    ensures |Filter(s, p)| <= |Filter(s, q)|
    ensures |Filter(s, p)| == |Filter(s, q)| <==> forall x :: x in s && q(x) ==> p(x)
  {
    if s != [] {
      assert forall x :: x in s[1..] ==> x in s;
      assert forall x :: x in s ==> x == s[0] || x in s[1..];
      assert s[0] in s;
      SameCountIff(s[1..], p, q);
    }
  }

  /** The count is that of the assets of several types exactly when the last safeguard could apply to each of them. */
  lemma ReportedCountIff(rules: Rules, events: seq<Event>, payload: seq<Definition>, controls: seq<Control>, verified: bool)
    requires Assess(rules, events, payload, controls, verified).Ok?
    ensures payload != []
    ensures Assess(rules, events, payload, controls, verified).value.ambiguous == |Filter(AssetOrder(events), MultiTyped(events))|
       <==> !OutsideLast(events, Last(payload))
  {
    PutAllNonempty(payload);
    CountOfLastIff(events, Last(payload));
  }

  lemma CountOfLastIff(events: seq<Event>, last: Definition)
    ensures AmbiguousCount(events, last) == |Filter(AssetOrder(events), MultiTyped(events))| <==> !OutsideLast(events, last)
  {
    forall a | a in AssetOrder(events) && Ambiguous(events, Eligible(last))(a) ensures MultiTyped(events)(a) {
      ObservedHasType(events, a);
    }
    SameCountIff(AssetOrder(events), Ambiguous(events, Eligible(last)), MultiTyped(events));
  }

  /** The loop variable is unbound exactly when there is no safeguard and no event that names one. */
  lemma UnboundIff(rules: Rules, events: seq<Event>, payload: seq<Definition>, controls: seq<Control>, verified: bool)
    ensures Assess(rules, events, payload, controls, verified) == Err(UnboundAmbiguousCount)
       <==> payload == [] && forall e :: e in events ==> e.safeguardIds == []
  {
    PutAllNonempty(payload);
    if payload == [] {
      forall e | e in events ensures Known(e.safeguardIds, Ids(Dict(payload))) <==> e.safeguardIds == [] {
        if e.safeguardIds != [] { assert e.safeguardIds[0] in e.safeguardIds; }
      }
    }
  }

  // ----------------------------------------------------------------- an example

  function Observation(eventId: string, assetType: string, record: Freshness.Record): Event
  {
    Event("t", eventId, "a", assetType, [], "observed", "info", 0, false, false, "", record)
  }

  function Safeguard(id: string, assetType: string): Definition { Definition(id, "", [assetType], {}, "", []) }

  /** One asset of two types that the first safeguard may cover and the last cannot: the report says 0. */
  lemma LastSafeguardDecides(rules: Rules, e1: Event, e2: Event, s: Definition, p: Definition, controls: seq<Control>, verified: bool)
    requires KeyOf(e1) == KeyOf(e2) && e1.assetType != e2.assetType && e1.safeguardIds == e2.safeguardIds == []
    requires s.id != p.id && e1.assetType in s.assetTypes && e1.assetType !in p.assetTypes && e2.assetType !in p.assetTypes
    ensures |Filter(AssetOrder([e1, e2]), MultiTyped([e1, e2]))| == 1
    ensures AmbiguousCount([e1, e2], s) == 1
    ensures Assess(rules, [e1, e2], [s, p], controls, verified).Ok?
    ensures Assess(rules, [e1, e2], [s, p], controls, verified).value.ambiguous == 0
  {
    OneAsset(e1, e2);
    TwoDefinitions(s, p);
    AmbiguityOfPair(e1, e2, s);
    AmbiguityOfPair(e1, e2, p);
    forall e | e in [e1, e2] ensures e.safeguardIds == [] {}
  }

  lemma AmbiguityOfPair(e1: Event, e2: Event, d: Definition)
    requires KeyOf(e1) == KeyOf(e2) && e1.assetType != e2.assetType
    ensures |Filter(AssetOrder([e1, e2]), MultiTyped([e1, e2]))| == 1
    ensures AmbiguousCount([e1, e2], d) == if e1.assetType in d.assetTypes || e2.assetType in d.assetTypes then 1 else 0
  {
    OneAsset(e1, e2);
    CountOfOne([e1, e2], KeyOf(e1), MultiTyped([e1, e2]));
    CountOfOne([e1, e2], KeyOf(e1), Ambiguous([e1, e2], Eligible(d)));
    var types := {e1.assetType, e2.assetType};
    assert types * Eligible(d) != {} <==> e1.assetType in d.assetTypes || e2.assetType in d.assetTypes by {
      if e1.assetType in d.assetTypes { assert e1.assetType in types * Eligible(d); }
      if e2.assetType in d.assetTypes { assert e2.assetType in types * Eligible(d); }
    }
  }

  /** Seen as a server and as a laptop, under a safeguard for servers and a last one for printers. */
  lemma AmbiguityOverlooked(rules: Rules, record: Freshness.Record, controls: seq<Control>, verified: bool)
    ensures var events := [Observation("1", "server", record), Observation("2", "laptop", record)];
            var payload := [Safeguard("s", "server"), Safeguard("p", "printer")];
            && |Filter(AssetOrder(events), MultiTyped(events))| == 1 && AmbiguousCount(events, payload[0]) == 1
            && Assess(rules, events, payload, controls, verified).Ok?
            && Assess(rules, events, payload, controls, verified).value.ambiguous == 0
  {
    assert "server"[0] == 's' && "laptop"[0] == 'l' && "printer"[0] == 'p' && "s"[0] == 's' && "p"[0] == 'p';
    LastSafeguardDecides(rules, Observation("1", "server", record), Observation("2", "laptop", record),
                         Safeguard("s", "server"), Safeguard("p", "printer"), controls, verified);
  }

  lemma OneAsset(e1: Event, e2: Event)
    requires KeyOf(e1) == KeyOf(e2) && e1.assetType != e2.assetType
    ensures AssetOrder([e1, e2]) == [KeyOf(e1)]
    ensures Types([e1, e2], KeyOf(e1)) == {e1.assetType, e2.assetType}
  {
    FirstSeenNext([], e1, KeyOf);
    FirstSeenNext([e1], e2, KeyOf);
    assert [] + [e1] == [e1] && [e1] + [e2] == [e1, e2];
    assert e1 in [e1, e2] && e2 in [e1, e2];
  }

  lemma TwoDefinitions(s: Definition, p: Definition)
    requires s.id != p.id
    ensures Dict([s, p]) == [s, p]
  {
    PutAllDistinct([s, p], IdOf);
  }

  lemma CountOfOne(events: seq<Event>, a: AssetKey, p: AssetKey -> bool)
    requires AssetOrder(events) == [a]
    ensures |Filter(AssetOrder(events), p)| == if p(a) then 1 else 0
  {
  }
}
