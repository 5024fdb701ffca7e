/** What a requirement's row says, in terms of the mappings of the safeguards (ccf_evaluation.py). */
module CcfRequirements {
  import opened Orders
  import opened ControlVerdicts
  import opened CcfEvaluation
  import Freshness = EvidenceFreshness

  // ------------------------------------------------------------------- mappings

  /** The safeguard has a contributing mapping to the control in this review state. */
  ghost predicate HasMapping(d: Definition, controlId: string, state: ReviewState)
  {
    exists m :: m in d.satisfies && m.controlId == controlId && m.contributes && m.state == state
  }

  lemma {:induction false} LinksMeaning(members: seq<Member>, controlId: string, state: ReviewState)
    ensures state in MemberLinks(members, controlId) <==>
              state != Rejected && exists m :: m in members && m.controlId == controlId && m.contributes && m.state == state
  {
    if members != [] {
      var n := |members| - 1;
      LinksMeaning(members[..n], controlId, state);
      assert members == members[..n] + [members[n]];
    }
  }

  lemma AllLinks(d: Definition, controlId: string)
    ensures forall s :: s in MemberLinks(d.satisfies, controlId) <==> s != Rejected && HasMapping(d, controlId, s)
  {
    forall s ensures s in MemberLinks(d.satisfies, controlId) <==> s != Rejected && HasMapping(d, controlId, s) {
      LinksMeaning(d.satisfies, controlId, s);
    }
  }

  /** A maintainer or the organisation has reviewed a mapping of the safeguard to the control. */
  ghost predicate HasReviewed(d: Definition, controlId: string)
  {
    HasMapping(d, controlId, MaintainerReviewed) || HasMapping(d, controlId, OrgReviewed)
  }

  /** Some mapping of the safeguard to the control still waits for its review. */
  ghost predicate HasPending(d: Definition, controlId: string)
  {
    HasMapping(d, controlId, Proposed) || HasMapping(d, controlId, NeedsChanges)
  }

  /** The reviewed safeguards of a control. */
  lemma {:induction false} ReviewedMeaning(definitions: seq<Definition>, controlId: string)
    ensures forall d :: d in Reviewed(definitions, controlId) <==> d in definitions && HasReviewed(d, controlId)
  {
    if definitions != [] {
      var n := |definitions| - 1;
      ReviewedMeaning(definitions[..n], controlId);
      assert definitions == definitions[..n] + [definitions[n]];
      ReviewedOnce(definitions[n], controlId);
      var times := |Filter(MemberLinks(definitions[n].satisfies, controlId), Attestable)|;
      RepeatedMember(definitions[n], times);
      assert Reviewed(definitions, controlId) == Reviewed(definitions[..n], controlId) + Repeated(definitions[n], times);
    }
  }

  function Repeated(d: Definition, times: nat): seq<Definition> { seq(times, _ => d) }

  lemma RepeatedMember(d: Definition, times: nat)
    ensures forall x :: x in Repeated(d, times) <==> times > 0 && x == d
  {
    if times > 0 { assert Repeated(d, times)[0] == d; }
  }

  lemma ReviewedOnce(d: Definition, controlId: string)
    ensures |Filter(MemberLinks(d.satisfies, controlId), Attestable)| > 0 <==> HasReviewed(d, controlId)
  {
    AllLinks(d, controlId);
    FilterNonempty(MemberLinks(d.satisfies, controlId), Attestable);
    assert Attestable(MaintainerReviewed) && Attestable(OrgReviewed);
  }

  /** Mappings are pending exactly when some safeguard has one. */
  lemma {:induction false} PendingMeaning(definitions: seq<Definition>, controlId: string)
    ensures Pending(definitions, controlId) > 0 <==> exists d :: d in definitions && HasPending(d, controlId)
  {
    if definitions != [] {
      var n := |definitions| - 1;
      PendingMeaning(definitions[..n], controlId);
      assert definitions == definitions[..n] + [definitions[n]];
      PendingOnce(definitions[n], controlId);
    }
  }

  lemma PendingOnce(d: Definition, controlId: string)
    ensures |Filter(MemberLinks(d.satisfies, controlId), (s: ReviewState) => !Attestable(s))| > 0 <==> HasPending(d, controlId)
  {
    var open := (s: ReviewState) => !Attestable(s);
    AllLinks(d, controlId);
    FilterNonempty(MemberLinks(d.satisfies, controlId), open);
    assert open(Proposed) && open(NeedsChanges) && !open(MaintainerReviewed) && !open(OrgReviewed);
  }

  // ---------------------------------------------------------------- requirements

  /** The event is bound to a safeguard with a reviewed mapping to the control. */
  ghost predicate Supports(e: Event, definitions: seq<Definition>, controlId: string)
  {
    exists d :: d in definitions && HasReviewed(d, controlId) && d.id in e.safeguardIds
  }

  ghost function SupportingRecords(events: seq<Event>, definitions: seq<Definition>, controlId: string): set<Freshness.Record>
  {
    set e | e in events && Supports(e, definitions, controlId) :: RecordIn(FreshnessMap(events))(e)
  }

  lemma SupportingRows(events: seq<Event>, definitions: seq<Definition>, controlId: string)
    ensures Freshness.RecordSet(Map(RequirementRows(events, Reviewed(definitions, controlId)), RecordIn(FreshnessMap(events))))
         == SupportingRecords(events, definitions, controlId)
  {
    var reviewed, f := Reviewed(definitions, controlId), RecordIn(FreshnessMap(events));
    ReviewedMeaning(definitions, controlId);
    RequirementRowsMembers(events, reviewed);
    forall r ensures r in Map(RequirementRows(events, reviewed), f) <==> r in SupportingRecords(events, definitions, controlId) {
      MapMembers(RequirementRows(events, reviewed), f, r);
    }
  }

  /** The evidence behind the control's reviewed mappings is current, as far as the control requires types of evidence. */
  ghost predicate EvidenceCurrent(events: seq<Event>, definitions: seq<Definition>, control: Control)
  {
    control.requiredTypes == {} || !Freshness.StaleEvidence(SupportingRecords(events, definitions, control.id), control.requiredTypes)
  }

  lemma StalenessMeaning(events: seq<Event>, definitions: seq<Definition>, control: Control)
    requires Reviewed(definitions, control.id) != []
    ensures RequirementStale(events, Reviewed(definitions, control.id), control.requiredTypes)
       <==> !EvidenceCurrent(events, definitions, control)
  {
    SupportingRows(events, definitions, control.id);
    var rows := RequirementRows(events, Reviewed(definitions, control.id));
    Freshness.StaleMeaning(Map(rows, RecordIn(FreshnessMap(events))), control.requiredTypes);
  }

  /** Fail closed, for any rules: a requirement passes exactly when the review log is verified, some safeguard has a mapping to it
      that is not rejected, every such mapping has been reviewed and belongs to a fully assessed safeguard, and the required
      evidence is current. */
  lemma RequirementPassIff(rules: Rules, events: seq<Event>, definitions: seq<Definition>, control: Control, verified: bool)
    ensures RequirementOf(rules, events, definitions, control, verified).status == Settled(Pass) <==>
              && verified && EvidenceCurrent(events, definitions, control)
              && (exists d, s :: d in definitions && HasMapping(d, control.id, s) && s != Rejected)
              && forall d, s :: d in definitions && HasMapping(d, control.id, s) && s != Rejected
                   ==> (s == MaintainerReviewed || s == OrgReviewed) && FullyAssessed(rules, events, d)
  {
    var reviewed := Reviewed(definitions, control.id);
    PassesThroughReviewed(rules, events, definitions, control, verified);
    ReviewedMeaning(definitions, control.id);
    PendingMeaning(definitions, control.id);
    if reviewed != [] {
      assert reviewed[0] in reviewed;
      StalenessMeaning(events, definitions, control);
    }
    MappingsReviewedIff(rules, events, definitions, control.id);
  }

  lemma MappingsReviewedIff(rules: Rules, events: seq<Event>, definitions: seq<Definition>, controlId: string)
    ensures (exists d :: d in definitions && HasReviewed(d, controlId)) && (forall d :: d in definitions ==> !HasPending(d, controlId))
            && (forall d :: d in definitions && HasReviewed(d, controlId) ==> FullyAssessed(rules, events, d))
       <==> (exists d, s :: d in definitions && HasMapping(d, controlId, s) && s != Rejected)
            && forall d, s :: d in definitions && HasMapping(d, controlId, s) && s != Rejected
                 ==> (s == MaintainerReviewed || s == OrgReviewed) && FullyAssessed(rules, events, d)
  {
  }

  /** A requirement fails exactly when a safeguard with a reviewed mapping has a failing asset. */
  lemma RequirementFailIff(rules: Rules, events: seq<Event>, definitions: seq<Definition>, control: Control, verified: bool)
    ensures RequirementOf(rules, events, definitions, control, verified).status == Settled(Fail) <==>
              exists d, e :: && d in definitions && HasReviewed(d, control.id) && e in events && d.id in e.safeguardIds
                             && AssetVerdict(rules, events, d, AssetKey(e.tenant, e.assetId)).status == Fail
  {
    FailsThroughReviewed(rules, events, definitions, control, verified);
    ReviewedMeaning(definitions, control.id);
    if d, a :| d in Reviewed(definitions, control.id) && a in BoundOrder(events, d.id) && AssetVerdict(rules, events, d, a).status == Fail {
      BoundOrderFacts(events, d.id);
      var e :| e in events && KeyOf(e) == a && d.id in e.safeguardIds;
      assert AssetKey(e.tenant, e.assetId) == a;
    }
    if d, e :| && d in definitions && HasReviewed(d, control.id) && e in events && d.id in e.safeguardIds
               && AssetVerdict(rules, events, d, AssetKey(e.tenant, e.assetId)).status == Fail {
      BoundOrderFacts(events, d.id);
      assert KeyOf(e) in BoundOrder(events, d.id);
    }
  }

  /** A requirement without any mapping that is not rejected is unmapped. */
  lemma RequirementUnmappedIff(rules: Rules, events: seq<Event>, definitions: seq<Definition>, control: Control, verified: bool)
    ensures RequirementOf(rules, events, definitions, control, verified).status == Unmapped <==>
            forall d, s :: d in definitions && HasMapping(d, control.id, s) ==> s == Rejected
  {
    ReviewedMeaning(definitions, control.id);
    PendingMeaning(definitions, control.id);
    if Reviewed(definitions, control.id) != [] { assert Reviewed(definitions, control.id)[0] in Reviewed(definitions, control.id); }
  }

  /** A mapped requirement is left open exactly when no reviewed safeguard fails and the log is unverified, a mapping is
      pending or a reviewed safeguard is itself left open. */
  lemma RequirementOpenIff(rules: Rules, events: seq<Event>, definitions: seq<Definition>, control: Control, verified: bool)
    ensures RequirementOf(rules, events, definitions, control, verified).status == Settled(NotEvaluated) <==>
            && (exists d, s :: d in definitions && HasMapping(d, control.id, s) && s != Rejected)
            && (forall d :: d in definitions && HasReviewed(d, control.id) ==> SafeguardOf(rules, events, d).status != Fail)
            && (|| !verified || (exists d :: d in definitions && HasPending(d, control.id))
                || exists d :: d in definitions && HasReviewed(d, control.id) && SafeguardOf(rules, events, d).status == NotEvaluated)
  {
    var states := RequirementStates(rules, events, definitions, control, verified);
    var statuses := ReviewedStatuses(rules, events, Reviewed(definitions, control.id));
    RequirementUnmappedIff(rules, events, definitions, control, verified);
    ReviewedMeaning(definitions, control.id);
    PendingMeaning(definitions, control.id);
    CombineMeaning(states);
    StatusMembers(rules, events, Reviewed(definitions, control.id), Fail);
    StatusMembers(rules, events, Reviewed(definitions, control.id), NotEvaluated);
    AddedStates(statuses, RequirementStale(events, Reviewed(definitions, control.id), control.requiredTypes),
                Pending(definitions, control.id) > 0 || !verified);
  }

  lemma AddedStates(statuses: seq<Verdict>, stale: bool, open: bool)
    ensures var states := statuses + (if stale then [Stale] else []) + (if open then [NotEvaluated] else []);
            && (Fail in states <==> Fail in statuses) && (NotEvaluated in states <==> NotEvaluated in statuses || open)
            && (states == [] ==> statuses == [] && !open)
  {
    var states := statuses + (if stale then [Stale] else []) + (if open then [NotEvaluated] else []);
    if open { assert states[|states| - 1] == NotEvaluated; }
  }

  // -------------------------------------------------------------------- counts

  predicate IsLink(m: Member, controlId: string, states: set<ReviewState>)
  {
    m.controlId == controlId && m.contributes && m.state in states
  }

  /** The positions of a safeguard's mappings to a control that are in one of the states. */
  ghost function LinkSet(members: seq<Member>, controlId: string, states: set<ReviewState>): set<nat>
  {
    set j: nat | j < |members| && IsLink(members[j], controlId, states)
  }

  lemma LinkSetStep(members: seq<Member>, controlId: string, states: set<ReviewState>)
    requires members != []
    ensures var n := |members| - 1;
            |LinkSet(members, controlId, states)|
            == |LinkSet(members[..n], controlId, states)| + if IsLink(members[n], controlId, states) then 1 else 0
  {
    var n := |members| - 1;
    var before := LinkSet(members[..n], controlId, states);
    assert LinkSet(members, controlId, states) == before + if IsLink(members[n], controlId, states) then {n} else {};
    assert n !in before;
  }

  lemma {:induction false} LinkCount(members: seq<Member>, controlId: string, p: ReviewState -> bool, states: set<ReviewState>)
    requires forall s :: s in states <==> s != Rejected && p(s)
    ensures |Filter(MemberLinks(members, controlId), p)| == |LinkSet(members, controlId, states)|
  {
    if members == [] {
      assert LinkSet(members, controlId, states) == {};
    } else {
      var n := |members| - 1;
      var added := if LinksTo(members[n], controlId) then [members[n].state] else [];
      LinkCount(members[..n], controlId, p, states);
      LinkSetStep(members, controlId, states);
      FilterAppend(MemberLinks(members[..n], controlId), added, p);
      assert |Filter(added, p)| == if IsLink(members[n], controlId, states) then 1 else 0;
    }
  }

  /** The mappings of chosen safeguards to a control that are in one of the states, by safeguard and position. */
  ghost function Links(definitions: seq<Definition>, chosen: Definition -> bool, controlId: string, states: set<ReviewState>): set<(nat, nat)>
  {
    set i: nat, j: nat | i < |definitions| && chosen(definitions[i]) && j in LinkSet(definitions[i].satisfies, controlId, states) :: (i, j)
  }

  ghost function Tagged(n: nat, s: set<nat>): set<(nat, nat)> { set j | j in s :: (n, j) }

  lemma {:induction false} TaggedSize(n: nat, s: set<nat>)
    ensures |Tagged(n, s)| == |s|
  {
    if s == {} {
      assert Tagged(n, s) == {};
    } else {
      var k :| k in s;
      TaggedSize(n, s - {k});
      assert Tagged(n, s) == Tagged(n, s - {k}) + {(n, k)};
      assert (n, k) !in Tagged(n, s - {k});
    }
  }

  lemma LinksStep(definitions: seq<Definition>, chosen: Definition -> bool, controlId: string, states: set<ReviewState>)
    requires definitions != []
    ensures var n := |definitions| - 1;
            |Links(definitions, chosen, controlId, states)|
            == |Links(definitions[..n], chosen, controlId, states)|
               + if chosen(definitions[n]) then |LinkSet(definitions[n].satisfies, controlId, states)| else 0
  {
    var n := |definitions| - 1;
    var before := Links(definitions[..n], chosen, controlId, states);
    var added := if chosen(definitions[n]) then LinkSet(definitions[n].satisfies, controlId, states) else {};
    var tagged := Tagged(n, added);
    TaggedSize(n, added);
    assert Links(definitions, chosen, controlId, states) == before + tagged;
    assert before !! tagged;
  }

  function WithId(id: string): Definition -> bool { (d: Definition) => d.id == id }

  function AnyOne(): Definition -> bool { (d: Definition) => true }

  lemma {:induction false} ReviewedCount(definitions: seq<Definition>, id: string, controlId: string)
    ensures multiset(Map(Reviewed(definitions, controlId), (d: Definition) => d.id))[id]
            == |Links(definitions, WithId(id), controlId, {MaintainerReviewed, OrgReviewed})|
  {
    if definitions == [] {
      assert Links(definitions, WithId(id), controlId, {MaintainerReviewed, OrgReviewed}) == {};
    } else {
      var n := |definitions| - 1;
      ReviewedCount(definitions[..n], id, controlId);
      LinksStep(definitions, WithId(id), controlId, {MaintainerReviewed, OrgReviewed});
      LinkCount(definitions[n].satisfies, controlId, Attestable, {MaintainerReviewed, OrgReviewed});
      ReviewedStep(definitions, id, controlId);
    }
  }

  lemma ReviewedStep(definitions: seq<Definition>, id: string, controlId: string)
    requires definitions != []
    ensures var n, idOf := |definitions| - 1, (d: Definition) => d.id;
            multiset(Map(Reviewed(definitions, controlId), idOf))[id]
            == multiset(Map(Reviewed(definitions[..n], controlId), idOf))[id]
               + if definitions[n].id == id then |Filter(MemberLinks(definitions[n].satisfies, controlId), Attestable)| else 0
  {
    var n, idOf := |definitions| - 1, (d: Definition) => d.id;
    var times := |Filter(MemberLinks(definitions[n].satisfies, controlId), Attestable)|;
    MapAppend(Reviewed(definitions[..n], controlId), Repeat(definitions[n], times), idOf);
    CountAppend(Map(Reviewed(definitions[..n], controlId), idOf), Map(Repeat(definitions[n], times), idOf), id);
    assert Map(Repeat(definitions[n], times), idOf) == Repeat(definitions[n].id, times);
    RepeatCount(definitions[n].id, times, id);
  }

  lemma {:induction false} PendingCount(definitions: seq<Definition>, controlId: string)
    ensures Pending(definitions, controlId) == |Links(definitions, AnyOne(), controlId, {Proposed, NeedsChanges})|
  {
    if definitions == [] {
      assert Links(definitions, AnyOne(), controlId, {Proposed, NeedsChanges}) == {};
    } else {
      var n := |definitions| - 1;
      PendingCount(definitions[..n], controlId);
      LinksStep(definitions, AnyOne(), controlId, {Proposed, NeedsChanges});
      LinkCount(definitions[n].satisfies, controlId, (s: ReviewState) => !Attestable(s), {Proposed, NeedsChanges});
    }
  }

  /** A safeguard is listed once per reviewed mapping, and every mapping that waits for its review is counted once. */
  lemma RequirementCounts(rules: Rules, events: seq<Event>, definitions: seq<Definition>, control: Control, verified: bool)
    ensures var r := RequirementOf(rules, events, definitions, control, verified);
            && r.controlId == control.id && r.framework == control.framework
            && (forall id :: r.reviewed[id] == |Links(definitions, WithId(id), control.id, {MaintainerReviewed, OrgReviewed})|)
            && r.pending == |Links(definitions, AnyOne(), control.id, {Proposed, NeedsChanges})|
  {
    forall id ensures RequirementOf(rules, events, definitions, control, verified).reviewed[id]
                      == |Links(definitions, WithId(id), control.id, {MaintainerReviewed, OrgReviewed})| {
      ReviewedCount(definitions, id, control.id);
    }
    PendingCount(definitions, control.id);
  }
}
