/** Versions of a control: retirement, succession and the catalog as of a date (catalog_versions.py). */
module CatalogVersions {
  import opened Outcomes
  import opened Orders

  /** Days since `date.min`. */
  type Day = nat

  /** A JSON member: missing, null, or a value. */
  datatype Field<+T> = Absent | Null | Is(value: T)

  datatype Version = Numbered(major: int, minor: int, rest: string) | Unnumbered(text: string)

  datatype Control = Control(
    id: Field<string>, version: Field<Version>, validFrom: Field<Day>, validTo: Field<Day>,
    supersedes: Field<(string, Field<Version>)>, supersededBy: Field<string>, reason: Field<string>, status: Field<string>,
    reviewed: Option<Day>, reconciled: Option<Day>, body: string, retiredAt: Option<int>)

  // ----------------------------------------------------------------- defaults

  function OrDefault<T>(f: Field<T>, default: Field<T>): Field<T> { if f.Absent? then default else f }

  const INITIAL := Numbered(1, 0, "0")

  function FirstReviewed(c: Control): Field<Day>
  {
    if c.reviewed.Some? then Is(c.reviewed.value)
    else if c.reconciled.Some? then Is(c.reconciled.value)
    else Null
  }

  /** `_with_version_defaults` */
  function Defaults(c: Control): Control
  {
    c.(version := OrDefault(c.version, Is(INITIAL)),
       validFrom := OrDefault(c.validFrom, FirstReviewed(c)),
       validTo := OrDefault(c.validTo, Null),
       supersedes := OrDefault(c.supersedes, Null),
       supersededBy := OrDefault(c.supersededBy, Null),
       reason := OrDefault(c.reason, Is("Initial versioned catalog baseline")),
       status := OrDefault(c.status, Is(if c.validTo.Is? then "retired" else "active")))
  }

  // -------------------------------------------------------------------- as of

  /** `valid_from <= d < valid_to`, open where a bound is missing. */
  predicate InForce(c: Control, d: Day)
  {
    (c.validFrom.Is? ==> c.validFrom.value <= d) && (c.validTo.Is? ==> d < c.validTo.value)
  }

  predicate Governs(c: Control, id: string, d: Day) { id != "" && c.id == Is(id) && InForce(c, d) }

  /** The rank by which versions displace each other: the start, or `date.min` when there is none. */
  function Start(c: Control): Day { if c.validFrom.Is? then c.validFrom.value else 0 }

  /** The version of `id` that the pass over the candidates settles on. */
  function Chosen(candidates: seq<Control>, id: string, d: Day): Option<Control>
  {
    if candidates == [] then None
    else
      var k := |candidates| - 1;
      var prior, c := Chosen(candidates[..k], id, d), candidates[k];
      if !Governs(c, id, d) then prior
      else if prior.None? || (c.validFrom.Is? && c.validFrom.value >= Start(prior.value)) then Some(c)
      else prior
  }

  /** A version is chosen exactly when one is in force, and no version in force starts later. */
  lemma {:induction false} ChosenIsLatest(candidates: seq<Control>, id: string, d: Day)
    ensures Chosen(candidates, id, d).Some? <==> exists c :: c in candidates && Governs(c, id, d)
    ensures Chosen(candidates, id, d).Some? ==>
      Chosen(candidates, id, d).value in candidates && Governs(Chosen(candidates, id, d).value, id, d)
    ensures Chosen(candidates, id, d).Some? ==>
      forall c :: c in candidates && Governs(c, id, d) ==> Start(c) <= Start(Chosen(candidates, id, d).value)
  {
    if candidates != [] {
      var k := |candidates| - 1;
      ChosenIsLatest(candidates[..k], id, d);
      assert candidates == candidates[..k] + [candidates[k]];
      if Governs(candidates[k], id, d) {
        assert candidates[k] in candidates;
      }
    }
  }

  /** `controls_as_of`: one pass that keeps, per control id, the version chosen so far and its start. */
  method ControlsAsOf(candidates: seq<Control>, target: Day) returns (chosen: map<string, Control>)
    ensures forall id :: id in chosen <==> Chosen(candidates, id, target).Some?
    ensures forall id :: id in chosen ==> chosen[id] == Defaults(Chosen(candidates, id, target).value)
  {
    chosen := map[];
    var chosenFrom: map<string, Day> := map[];
    for i := 0 to |candidates|
      invariant PassSoFar(chosen, chosenFrom, candidates[..i], target)
    {
      var control := candidates[i];
      PassStep(chosen, chosenFrom, candidates[..i], control, target);
      TakeNext(candidates, i);
      if control.id.Is? && control.id.value != "" && InForce(control, target) {
        var cid := control.id.value;
        if cid !in chosenFrom || (control.validFrom.Is? && control.validFrom.value >= chosenFrom[cid]) {
          chosen := chosen[cid := Defaults(control)];
          chosenFrom := chosenFrom[cid := Start(control)];
        }
      }
    }
    assert candidates[..|candidates|] == candidates;
    forall id ensures id in chosen <==> Chosen(candidates, id, target).Some? {
      assert PassFor(chosen, chosenFrom, candidates, target, id);
    }
    forall id | id in chosen ensures chosen[id] == Defaults(Chosen(candidates, id, target).value) {
      assert PassFor(chosen, chosenFrom, candidates, target, id);
    }
  }

  ghost predicate PassSoFar(chosen: map<string, Control>, chosenFrom: map<string, Day>, seen: seq<Control>, target: Day)
  {
    forall id :: PassFor(chosen, chosenFrom, seen, target, id)
  }

  ghost predicate PassFor(chosen: map<string, Control>, chosenFrom: map<string, Day>, seen: seq<Control>, target: Day, id: string)
  {
    match Chosen(seen, id, target)
    case None => id !in chosen && id !in chosenFrom
    case Some(c) => id in chosen && id in chosenFrom && chosen[id] == Defaults(c) && chosenFrom[id] == Start(c)
  }

  /** The candidate becomes the chosen version of its id. */
  predicate Takes(c: Control, chosenFrom: map<string, Day>, target: Day)
  {
    && c.id.Is? && c.id.value != "" && InForce(c, target)
    && (c.id.value !in chosenFrom || (c.validFrom.Is? && c.validFrom.value >= chosenFrom[c.id.value]))
  }

  /** One more candidate. */
  lemma PassStep(chosen: map<string, Control>, chosenFrom: map<string, Day>, seen: seq<Control>, c: Control, target: Day)
    requires PassSoFar(chosen, chosenFrom, seen, target)
    ensures Takes(c, chosenFrom, target) ==>
      PassSoFar(chosen[c.id.value := Defaults(c)], chosenFrom[c.id.value := Start(c)], seen + [c], target)
    ensures !Takes(c, chosenFrom, target) ==> PassSoFar(chosen, chosenFrom, seen + [c], target)
  {
    var next := seen + [c];
    assert next[..|seen|] == seen;
    if Takes(c, chosenFrom, target) {
      var taken, takenFrom := chosen[c.id.value := Defaults(c)], chosenFrom[c.id.value := Start(c)];
      forall id ensures PassFor(taken, takenFrom, next, target, id) {
        assert PassFor(chosen, chosenFrom, seen, target, id);
      }
    } else {
      forall id ensures PassFor(chosen, chosenFrom, next, target, id) {
        assert PassFor(chosen, chosenFrom, seen, target, id);
      }
    }
  }

  function HasId(id: string): Control -> bool { (c: Control) => c.id == Is(id) }

  function At(d: Day): Control -> bool { c => InForce(c, d) }

  /** The candidates hold exactly these versions of the control, in any order, among those of other controls. */
  ghost predicate Offers(candidates: seq<Control>, id: string, versions: seq<Control>)
  {
    id != "" && multiset(Filter(candidates, HasId(id))) == multiset(versions)
  }

  lemma OffersMembers(candidates: seq<Control>, id: string, versions: seq<Control>, d: Day)
    requires Offers(candidates, id, versions)
    ensures forall c :: c in candidates && Governs(c, id, d) <==> c in Filter(versions, At(d))
  {
    MultisetMembers(Filter(candidates, HasId(id)), versions);
    forall c ensures c in candidates && Governs(c, id, d) <==> c in Filter(versions, At(d)) {
      assert c in Filter(candidates, HasId(id)) <==> c in versions;
    }
  }

  /** Where windows do not overlap, the order of the candidates does not matter. */
  lemma OnlyOneInForce(candidates: seq<Control>, id: string, versions: seq<Control>, d: Day, c: Control)
    requires Offers(candidates, id, versions) && Filter(versions, At(d)) == [c]
    ensures Chosen(candidates, id, d) == Some(c)
  {
    OffersMembers(candidates, id, versions, d);
    ChosenIsLatest(candidates, id, d);
    assert c in Filter(versions, At(d));
  }

  lemma NoneInForce(candidates: seq<Control>, id: string, versions: seq<Control>, d: Day)
    requires Offers(candidates, id, versions) && Filter(versions, At(d)) == []
    ensures Chosen(candidates, id, d) == None
  {
    OffersMembers(candidates, id, versions, d);
    ChosenIsLatest(candidates, id, d);
  }

  // --------------------------------------------------------------- retirement

  datatype Store = Store(controls: seq<Control>, history: seq<Control>)

  datatype Retirement = Retirement(id: string, day: Day, reason: string, supersededBy: string,
                                   successor: Option<Control>, retiredAt: int)

  function Bump(v: Field<Version>): Version
  {
    if !v.Is? then Numbered(1, 1, "0")
    else match v.value
      case Numbered(major, minor, _) => Numbered(major, minor + 1, "0")
      case Unnumbered(_) => Numbered(1, 1, "0")
  }

  function Retired(c: Control, r: Retirement): Control
  {
    var closed := Defaults(c).(validTo := Is(r.day), status := Is("retired"), reason := Is(r.reason));
    if r.supersededBy != "" then closed.(supersededBy := Is(r.supersededBy)) else closed
  }

  /** When the successor takes force: its own date if that lies after the predecessor's start, else the retirement day. */
  function TakesForce(successor: Control, retired: Control, day: Day): Day
  {
    if successor.validFrom.Is? && (retired.validFrom.Is? ==> successor.validFrom.value > retired.validFrom.value)
    then successor.validFrom.value else day
  }

  function Succeeding(successor: Control, retired: Control, r: Retirement): Control
  {
    var row := Defaults(successor);
    row.(id := OrDefault(row.id, Is(r.id)),
         version := if row.version == Null || row.version == retired.version then Is(Bump(retired.version)) else row.version,
         validFrom := Is(TakesForce(successor, retired, r.day)),
         validTo := Null,
         supersedes := Is((r.id, retired.version)),
         status := Is("active"))
  }

  function FirstWithId(controls: seq<Control>, id: string): (r: Option<nat>)
    ensures r.Some? ==> r.value < |controls| && controls[r.value].id == Is(id) && forall j :: 0 <= j < r.value ==> controls[j].id != Is(id)
    ensures r.None? ==> forall c :: c in controls ==> c.id != Is(id)
  {
    if controls == [] then None
    else if controls[0].id == Is(id) then Some(0)
    else
      var rest := FirstWithId(controls[1..], id);
      if rest.None? then None else Some(rest.value + 1)
  }

  datatype Receipt = Receipt(retired: Control, successor: Option<Control>)

  datatype Error = NotInActiveCatalog

  /** The stores that a retirement produces; an unknown control raises and changes nothing. */
  function Apply(s: Store, r: Retirement): Store
  {
    var idx := FirstWithId(s.controls, r.id);
    if idx.None? then s
    else
      var retired := Retired(s.controls[idx.value], r);
      var history := s.history + [retired.(retiredAt := Some(r.retiredAt))];
      if r.successor.Some? then Store(s.controls[idx.value := Succeeding(r.successor.value, retired, r)], history)
      else Store(s.controls[..idx.value] + s.controls[idx.value + 1..], history)
  }

  class Catalog {
    var controls: seq<Control>
    var history: seq<Control>

    constructor (controls: seq<Control>, history: seq<Control>)
      ensures this.controls == controls && this.history == history
    {
      this.controls, this.history := controls, history;
    }

    function Stored(): Store
      reads this
    {
      Store(controls, history)
    }

    /** `retire_control`: closes the active version into history and puts the successor in its place. */
    method RetireControl(r: Retirement) returns (receipt: Result<Receipt, Error>)
      modifies this
      ensures Stored() == Apply(old(Stored()), r)
      ensures receipt.Err? <==> !exists c :: c in old(controls) && c.id == Is(r.id)
      ensures receipt.Ok? ==>
        && history == old(history) + [receipt.value.retired.(retiredAt := Some(r.retiredAt))]
        && receipt.value.retired.validTo == Is(r.day)
        && (receipt.value.successor.Some? <==> r.successor.Some?)
        && (receipt.value.successor.Some? ==>
             && FirstWithId(old(controls), r.id).Some? && |controls| == |old(controls)|
             && receipt.value.successor.value == controls[FirstWithId(old(controls), r.id).value]
             && receipt.value.successor.value.version != receipt.value.retired.version
             && receipt.value.successor.value.supersedes == Is((r.id, receipt.value.retired.version)))
    {
      var idx := 0;
      while idx < |controls| && controls[idx].id != Is(r.id)
        invariant idx <= |controls| && controls == old(controls) && history == old(history)
        invariant forall j :: 0 <= j < idx ==> controls[j].id != Is(r.id)
      {
        idx := idx + 1;
      }
      FoundFirst(controls, r.id, idx);
      if idx == |controls| {
        return Err(NotInActiveCatalog);
      }
      assert controls[idx] in controls;
      var retired := Retired(controls[idx], r);
      history := history + [retired.(retiredAt := Some(r.retiredAt))];
      if r.successor.Some? {
        var row := Succeeding(r.successor.value, retired, r);
        controls := controls[idx := row];
        assert controls[idx] == row;
        receipt := Ok(Receipt(retired, Some(row)));
      } else {
        controls := controls[..idx] + controls[idx + 1..];
        receipt := Ok(Receipt(retired, None));
      }
    }
  }

  lemma FoundFirst(controls: seq<Control>, id: string, idx: nat)
    requires idx <= |controls| && forall j :: 0 <= j < idx ==> controls[j].id != Is(id)
    requires idx < |controls| ==> controls[idx].id == Is(id)
    ensures FirstWithId(controls, id) == if idx < |controls| then Some(idx) else None
  {
    if idx < |controls| {
      assert controls[idx] in controls;
    }
  }

  // ----------------------------------------------------------------- timelines

  function Filled(): Control -> Control { c => Defaults(c) }

  /** Every version `controls_as_of` considers. */
  function Versions(s: Store): seq<Control> { s.history + Map(s.controls, Filled()) }

  /** Adjacent windows from `first` to `end`, where each version ends on the day the next one starts. */
  ghost predicate Chain(s: seq<Control>, first: Day, end: Option<Day>)
  {
    && s != [] && s[0].validFrom == Is(first)
    && if |s| == 1 then (if end.None? then !s[0].validTo.Is? else s[0].validTo == Is(end.value) && first <= end.value)
       else s[0].validTo.Is? && first <= s[0].validTo.value && Chain(s[1..], s[0].validTo.value, end)
  }

  /** Within the chain's span exactly one window contains each day; outside it none does. */
  lemma {:induction false} ChainTiles(s: seq<Control>, first: Day, end: Option<Day>, d: Day)
    requires Chain(s, first, end)
    ensures |Filter(s, At(d))| == if first <= d && (end.Some? ==> d < end.value) then 1 else 0
    ensures end.Some? ==> first <= end.value
  {
    if |s| == 1 {
      assert s[1..] == [];
    } else {
      ChainTiles(s[1..], s[0].validTo.value, end, d);
    }
  }

  lemma {:induction false} ChainAppend(s: seq<Control>, c: Control, first: Day, end: Option<Day>)
    requires s != []
    ensures Chain(s + [c], first, end) <==> c.validFrom.Is? && Chain(s, first, Some(c.validFrom.value)) && Chain([c], c.validFrom.value, end)
  {
    assert (s + [c])[1..] == s[1..] + [c];
    if |s| == 1 {
      assert s[1..] + [c] == [c];
    } else if s[0].validTo.Is? {
      ChainAppend(s[1..], c, s[0].validTo.value, end);
    }
  }

  /** Closing the open end at `day` and starting the next version there keeps the chain. */
  lemma ChainSucceeds(s: seq<Control>, open: Control, closed: Control, next: Control, first: Day, day: Day)
    requires Chain(s + [open], first, None)
    requires closed.validFrom == open.validFrom && closed.validTo == Is(day) && Start(open) <= day
    requires next.validFrom == Is(day) && !next.validTo.Is?
    ensures Chain(s + [closed], first, Some(day))
    ensures Chain(s + [closed, next], first, None)
  {
    if s != [] {
      ChainAppend(s, open, first, None);
      ChainAppend(s, closed, first, Some(day));
    } else {
      assert s + [open] == [open] && s + [closed] == [closed];
    }
    assert s + [closed, next] == (s + [closed]) + [next];
    ChainAppend(s + [closed], next, first, None);
  }

  /** The control is in force since before `clock`, and its versions tile the days from `first` on. */
  ghost predicate Tiled(s: Store, id: string, first: Day, clock: Day)
  {
    var active := Filter(s.controls, HasId(id));
    && |active| == 1 && Start(Defaults(active[0])) <= clock
    && Chain(Filter(s.history, HasId(id)) + [Defaults(active[0])], first, None)
  }

  /** The control was retired for good on day `end`. */
  ghost predicate Ended(s: Store, id: string, first: Day, end: Day)
  {
    Filter(s.controls, HasId(id)) == [] && Chain(Filter(s.history, HasId(id)), first, Some(end))
  }

  function Timeline(s: Store, id: string): seq<Control> { Filter(Versions(s), HasId(id)) }

  lemma {:induction false} FilterFilled(controls: seq<Control>, id: string)
    ensures Filter(Map(controls, Filled()), HasId(id)) == Map(Filter(controls, HasId(id)), Filled())
  {
    if controls != [] {
      assert Map(controls, Filled())[1..] == Map(controls[1..], Filled());
      FilterFilled(controls[1..], id);
    }
  }

  lemma TimelineParts(s: Store, id: string)
    ensures Timeline(s, id) == Filter(s.history, HasId(id)) + Map(Filter(s.controls, HasId(id)), Filled())
  {
    FilterAppend(s.history, Map(s.controls, Filled()), HasId(id));
    FilterFilled(s.controls, id);
  }

  lemma TimelineOfTiled(s: Store, id: string, first: Day, clock: Day)
    requires Tiled(s, id, first, clock)
    ensures Chain(Timeline(s, id), first, None)
  {
    TimelineParts(s, id);
    var active := Filter(s.controls, HasId(id));
    assert Map(active, Filled()) == [Defaults(active[0])];
  }

  lemma TimelineOfEnded(s: Store, id: string, first: Day, end: Day)
    requires Ended(s, id, first, end)
    ensures Chain(Timeline(s, id), first, Some(end))
  {
    TimelineParts(s, id);
    assert Timeline(s, id) == Filter(s.history, HasId(id));
  }

  /** Exactly one version is in force on each day of the span, and the catalog as of that day shows it; outside it there is none. */
  lemma AsOfFollowsChain(candidates: seq<Control>, id: string, versions: seq<Control>, first: Day, end: Option<Day>, d: Day)
    requires Offers(candidates, id, versions) && Chain(versions, first, end)
    ensures var inForce := Filter(versions, At(d));
            if first <= d && (end.Some? ==> d < end.value)
            then |inForce| == 1 && Chosen(candidates, id, d) == Some(inForce[0])
            else inForce == [] && Chosen(candidates, id, d) == None
  {
    ChainTiles(versions, first, end, d);
    var inForce := Filter(versions, At(d));
    if |inForce| == 1 {
      assert inForce == [inForce[0]];
      OnlyOneInForce(candidates, id, versions, d, inForce[0]);
    } else {
      NoneInForce(candidates, id, versions, d);
    }
  }

  // ---------------------------------------------------------------- one step

  /** The retirement takes its successor, if any, from no other control and no later or earlier day. */
  predicate Seamless(r: Retirement)
  {
    r.successor.Some? ==> (r.successor.value.id == Absent || r.successor.value.id == Is(r.id)) && !r.successor.value.validFrom.Is?
  }

  /** A retirement of another control that does not bring in a version of this one. */
  predicate Unrelated(r: Retirement, id: string)
  {
    r.id != id && (r.successor.Some? ==> r.successor.value.id != Is(id))
  }

  /** Retiring other controls leaves a control's versions alone. */
  lemma UnrelatedStep(s: Store, r: Retirement, id: string)
    requires Unrelated(r, id)
    ensures Filter(Apply(s, r).controls, HasId(id)) == Filter(s.controls, HasId(id))
    ensures Filter(Apply(s, r).history, HasId(id)) == Filter(s.history, HasId(id))
  {
    var idx := FirstWithId(s.controls, r.id);
    if idx.Some? {
      var active := s.controls[idx.value];
      FilterAppend(s.history, [Archived(active, r)], HasId(id));
      FilterNone([Archived(active, r)], HasId(id));
      FilterRemove(s.controls, idx.value, HasId(id));
      if r.successor.Some? {
        FilterUpdate(s.controls, idx.value, Succeeding(r.successor.value, Retired(active, r), r), HasId(id));
      }
    }
  }

  /** The closed version as history keeps it. */
  function Archived(c: Control, r: Retirement): Control { Retired(c, r).(retiredAt := Some(r.retiredAt)) }

  /** The successor as a candidate for this control, if it is one. */
  function Next(active: Control, r: Retirement): seq<Control>
  {
    if r.successor.Some? then Filter([Succeeding(r.successor.value, Retired(active, r), r)], HasId(r.id)) else []
  }

  /** Retiring the only active version moves it to history and leaves the successor, if it is this control's. */
  lemma RetirementStep(s: Store, r: Retirement)
    requires |Filter(s.controls, HasId(r.id))| == 1
    ensures Filter(Apply(s, r).history, HasId(r.id))
         == Filter(s.history, HasId(r.id)) + [Archived(Filter(s.controls, HasId(r.id))[0], r)]
    ensures Filter(Apply(s, r).controls, HasId(r.id)) == Next(Filter(s.controls, HasId(r.id))[0], r)
  {
    var only := Filter(s.controls, HasId(r.id));
    assert only[0] in only;
    var i := FirstWithId(s.controls, r.id).value;
    OnlyMatch(s.controls, i, r.id);
    FilterAppend(s.history, [Archived(only[0], r)], HasId(r.id));
    FilterAll([Archived(only[0], r)], HasId(r.id));
    if r.successor.Some? {
      var row := Succeeding(r.successor.value, Retired(only[0], r), r);
      FilterReplace(s.controls, i, row, HasId(r.id));
    } else {
      FilterAppend(s.controls[..i], s.controls[i + 1..], HasId(r.id));
    }
  }

  lemma OnlyMatch(controls: seq<Control>, i: nat, id: string)
    requires i < |controls| && controls[i].id == Is(id) && |Filter(controls, HasId(id))| == 1
    ensures Filter(controls[..i], HasId(id)) == [] && Filter(controls[i + 1..], HasId(id)) == []
    ensures Filter(controls, HasId(id))[0] == controls[i]
  {
    FilterReplace(controls, i, controls[i], HasId(id));
    FilterAll([controls[i]], HasId(id));
    assert controls[i := controls[i]] == controls;
  }

  /** A seamless retirement keeps the windows tiling, or closes the last of them. */
  lemma SeamlessStep(s: Store, r: Retirement, first: Day, clock: Day)
    requires Tiled(s, r.id, first, clock) && clock <= r.day && Seamless(r)
    ensures r.successor.Some? ==> Tiled(Apply(s, r), r.id, first, r.day)
    ensures r.successor.None? ==> Ended(Apply(s, r), r.id, first, r.day)
  {
    if r.successor.Some? {
      SeamlessSuccession(s, r, first, clock);
    } else {
      SeamlessEnd(s, r, first, clock);
    }
  }

  lemma SeamlessSuccession(s: Store, r: Retirement, first: Day, clock: Day)
    requires Tiled(s, r.id, first, clock) && clock <= r.day && Seamless(r) && r.successor.Some?
    ensures Tiled(Apply(s, r), r.id, first, r.day)
  {
    RetirementStep(s, r);
    var active, closed := Filter(s.controls, HasId(r.id))[0], Filter(s.history, HasId(r.id));
    var next := Succeeding(r.successor.value, Retired(active, r), r);
    SuccessorRow(active, r);
    ChainSucceeds(closed, Defaults(active), Archived(active, r), next, first, r.day);
    assert closed + [Archived(active, r), next] == (closed + [Archived(active, r)]) + [next];
  }

  lemma SuccessorRow(active: Control, r: Retirement)
    requires Seamless(r) && r.successor.Some?
    ensures var next := Succeeding(r.successor.value, Retired(active, r), r);
            && Next(active, r) == [next] && Defaults(next) == next
            && next.validFrom == Is(r.day) && next.validTo == Null
    ensures Archived(active, r).validFrom == Defaults(active).validFrom && Archived(active, r).validTo == Is(r.day)
  {
  }

  lemma SeamlessEnd(s: Store, r: Retirement, first: Day, clock: Day)
    requires Tiled(s, r.id, first, clock) && clock <= r.day && r.successor.None?
    ensures Ended(Apply(s, r), r.id, first, r.day)
  {
    RetirementStep(s, r);
    var active, closed := Filter(s.controls, HasId(r.id))[0], Filter(s.history, HasId(r.id));
    var next := Defaults(active).(validFrom := Is(r.day));
    ChainSucceeds(closed, Defaults(active), Archived(active, r), next.(validTo := Null), first, r.day);
  }

  // -------------------------------------------------------------------- runs

  function Run(s: Store, steps: seq<Retirement>): Store
    decreases |steps|
  {
    if steps == [] then s else Run(Apply(s, steps[0]), steps[1..])
  }

  /** Retirements in the order of their days; those of the control are seamless, the others do not touch it. */
  ghost predicate Orderly(steps: seq<Retirement>, id: string, clock: Day)
  {
    steps == [] ||
    (clock <= steps[0].day && (if steps[0].id == id then Seamless(steps[0]) else Unrelated(steps[0], id))
     && Orderly(steps[1..], id, steps[0].day))
  }

  ghost predicate InForceOrEnded(s: Store, id: string, first: Day)
  {
    (exists now :: Tiled(s, id, first, now)) || (exists end :: Ended(s, id, first, end))
  }

  /** Over every orderly run the control's windows keep tiling the days from the first one, until it is retired for good. */
  lemma {:induction false} RunKeepsTiling(s: Store, steps: seq<Retirement>, id: string, first: Day, clock: Day)
    requires Tiled(s, id, first, clock) && Orderly(steps, id, clock)
    ensures InForceOrEnded(Run(s, steps), id, first)
    decreases |steps|
  {
    if steps == [] {
      assert Tiled(Run(s, steps), id, first, clock);
    } else {
      var r := steps[0];
      assert Run(s, steps) == Run(Apply(s, r), steps[1..]);
      if r.id == id {
        SeamlessStep(s, r, first, clock);
        if r.successor.Some? {
          RunKeepsTiling(Apply(s, r), steps[1..], id, first, r.day);
        } else {
          RunKeepsEnd(Apply(s, r), steps[1..], id, first, r.day, r.day);
          assert Ended(Run(s, steps), id, first, r.day);
        }
      } else {
        UnrelatedStep(s, r, id);
        RunKeepsTiling(Apply(s, r), steps[1..], id, first, r.day);
      }
    }
  }

  lemma NotActive(controls: seq<Control>, id: string)
    requires Filter(controls, HasId(id)) == []
    ensures FirstWithId(controls, id) == None
  {
    forall i | 0 <= i < |controls| ensures controls[i].id != Is(id) {
      assert controls[i] in controls && controls[i] !in Filter(controls, HasId(id));
    }
  }

  lemma {:induction false} RunKeepsEnd(s: Store, steps: seq<Retirement>, id: string, first: Day, end: Day, clock: Day)
    requires Ended(s, id, first, end) && Orderly(steps, id, clock)
    ensures Ended(Run(s, steps), id, first, end)
    decreases |steps|
  {
    if steps != [] {
      var r := steps[0];
      if r.id == id {
        NotActive(s.controls, id);
        assert Apply(s, r) == s;
      } else {
        UnrelatedStep(s, r, id);
      }
      RunKeepsEnd(Apply(s, r), steps[1..], id, first, end, r.day);
    }
  }

  /** On each day of the span exactly one version is in force and is the one chosen; on no other day is there one. */
  ghost predicate OneVersionADay(candidates: seq<Control>, id: string, versions: seq<Control>, first: Day, end: Option<Day>)
  {
    forall d: Day ::
      if first <= d && (end.Some? ==> d < end.value)
      then |Filter(versions, At(d))| == 1 && Chosen(candidates, id, d) == Some(Filter(versions, At(d))[0])
      else Filter(versions, At(d)) == [] && Chosen(candidates, id, d) == None
  }

  lemma ChainIsOneVersionADay(candidates: seq<Control>, id: string, versions: seq<Control>, first: Day, end: Option<Day>)
    requires Offers(candidates, id, versions) && Chain(versions, first, end)
    ensures OneVersionADay(candidates, id, versions, first, end)
  {
    forall d: Day ensures
      if first <= d && (end.Some? ==> d < end.value)
      then |Filter(versions, At(d))| == 1 && Chosen(candidates, id, d) == Some(Filter(versions, At(d))[0])
      else Filter(versions, At(d)) == [] && Chosen(candidates, id, d) == None
    {
      AsOfFollowsChain(candidates, id, versions, first, end, d);
    }
  }

  /** After any orderly run, the windows tile the days from the first one on, and the catalog as of a day shows the version in force. */
  lemma WindowsTileTime(s: Store, steps: seq<Retirement>, id: string, first: Day, clock: Day, candidates: seq<Control>)
    requires Tiled(s, id, first, clock) && Orderly(steps, id, clock)
    requires Offers(candidates, id, Timeline(Run(s, steps), id))
    ensures exists end :: OneVersionADay(candidates, id, Timeline(Run(s, steps), id), first, end)
  {
    RunKeepsTiling(s, steps, id, first, clock);
    var last := Run(s, steps);
    if now :| Tiled(last, id, first, now) {
      TimelineOfTiled(last, id, first, now);
      ChainIsOneVersionADay(candidates, id, Timeline(last, id), first, None);
    } else {
      var end :| Ended(last, id, first, end);
      TimelineOfEnded(last, id, first, end);
      ChainIsOneVersionADay(candidates, id, Timeline(last, id), first, Some(end));
    }
  }

  // ------------------------------------------------------- the past stays put

  /** What a retirement does not rewrite in a version. */
  function Wording(c: Control): (Field<string>, Field<Version>, Field<Day>, string) { (c.id, c.version, c.validFrom, c.body) }

  /** Both catalogs answer with the same version of the control, or both with none. */
  ghost predicate SameAnswer(a: Option<Control>, b: Option<Control>)
  {
    (a.Some? <==> b.Some?) && (a.Some? ==> Wording(Defaults(a.value)) == Wording(Defaults(b.value)))
  }

  /** On every day before `day`, the catalogs before and after the retirement name the same version. */
  ghost predicate PastKept(before: seq<Control>, after: seq<Control>, id: string, day: Day)
  {
    forall d: Day :: d < day ==> SameAnswer(Chosen(before, id, d), Chosen(after, id, d))
  }

  /** The successor is filed under the same control, with a date of its own strictly between the start of the version it
      replaces and the retirement day. */
  predicate Backdated(active: Control, r: Retirement)
  {
    && r.successor.Some? && (r.successor.value.id == Absent || r.successor.value.id == Is(r.id))
    && r.successor.value.validFrom.Is? && r.successor.value.validFrom.value < r.day
    && (Defaults(active).validFrom.Is? ==> Defaults(active).validFrom.value < r.successor.value.validFrom.value)
  }

  /** A retirement leaves the past answers alone exactly when its successor is not backdated. */
  lemma PastKeptIff(s: Store, r: Retirement, first: Day, clock: Day, before: seq<Control>, after: seq<Control>)
    requires Tiled(s, r.id, first, clock)
    requires Offers(before, r.id, Timeline(s, r.id)) && Offers(after, r.id, Timeline(Apply(s, r), r.id))
    ensures PastKept(before, after, r.id, r.day) <==> !Backdated(Filter(s.controls, HasId(r.id))[0], r)
  {
    var active := Filter(s.controls, HasId(r.id))[0];
    var closed := Filter(s.history, HasId(r.id));
    RetirementTimelines(s, r, first, clock);
    if Backdated(active, r) {
      BackdatedChangesThePast(closed, active, r, first, before, after);
    } else {
      forall d: Day | d < r.day ensures SameAnswer(Chosen(before, r.id, d), Chosen(after, r.id, d)) {
        PastDayKept(closed, active, r, first, before, after, d);
      }
    }
  }

  lemma RetirementTimelines(s: Store, r: Retirement, first: Day, clock: Day)
    requires Tiled(s, r.id, first, clock)
    ensures Timeline(s, r.id) == Filter(s.history, HasId(r.id)) + [Defaults(Filter(s.controls, HasId(r.id))[0])]
    ensures Timeline(Apply(s, r), r.id)
         == Filter(s.history, HasId(r.id)) + [Archived(Filter(s.controls, HasId(r.id))[0], r)] + Next(Filter(s.controls, HasId(r.id))[0], r)
  {
    TimelineParts(s, r.id);
    TimelineParts(Apply(s, r), r.id);
    RetirementStep(s, r);
    var active := Filter(s.controls, HasId(r.id));
    assert Map(active, Filled()) == [Defaults(active[0])];
    NextIsFilled(active[0], r);
  }

  lemma NextIsFilled(active: Control, r: Retirement)
    ensures Map(Next(active, r), Filled()) == Next(active, r)
  {
    forall c | c in Next(active, r) ensures Defaults(c) == c {
      assert c in [Succeeding(r.successor.value, Retired(active, r), r)];
    }
  }

  /** Before its last day, the closed version is in force exactly when the open one was. */
  lemma PastDayKept(closed: seq<Control>, active: Control, r: Retirement, first: Day, before: seq<Control>, after: seq<Control>, d: Day)
    requires Chain(closed + [Defaults(active)], first, None) && d < r.day && !Backdated(active, r)
    requires Offers(before, r.id, closed + [Defaults(active)])
    requires Offers(after, r.id, closed + [Archived(active, r)] + Next(active, r))
    ensures SameAnswer(Chosen(before, r.id, d), Chosen(after, r.id, d))
  {
    var open, shut, next := Defaults(active), Archived(active, r), Next(active, r);
    LastWindowOpen(closed, open, first);
    NextNotYet(active, r, d);
    VersionsOn(closed, open, [], d);
    VersionsOn(closed, shut, next, d);
    ChainTiles(closed + [open], first, None, d);
    assert closed + [open] + [] == closed + [open];
    AsOfFollowsChain(before, r.id, closed + [open], first, None, d);
    SameVersionsOn(closed, open, shut, next, d);
    if InForce(open, d) {
      OnlyOneInForce(after, r.id, closed + [shut] + next, d, shut);
    } else if first <= d {
      OnlyOneInForce(after, r.id, closed + [shut] + next, d, Filter(closed + [open], At(d))[0]);
    } else {
      NoneInForce(after, r.id, closed + [shut] + next, d);
    }
  }

  lemma NextNotYet(active: Control, r: Retirement, d: Day)
    requires d < r.day && !Backdated(active, r)
    ensures Filter(Next(active, r), At(d)) == []
  {
    forall c | c in Next(active, r) ensures !InForce(c, d) {
      assert c in [Succeeding(r.successor.value, Retired(active, r), r)];
    }
    FilterNone(Next(active, r), At(d));
  }

  lemma VersionsOn(closed: seq<Control>, c: Control, next: seq<Control>, d: Day)
    ensures Filter(closed + [c] + next, At(d)) == Filter(closed, At(d)) + (if InForce(c, d) then [c] else []) + Filter(next, At(d))
  {
    FilterAppend(closed + [c], next, At(d));
    FilterAppend(closed, [c], At(d));
  }

  lemma SameVersionsOn(closed: seq<Control>, open: Control, shut: Control, next: seq<Control>, d: Day)
    requires |Filter(closed + [open], At(d))| <= 1 && Filter(next, At(d)) == []
    requires InForce(open, d) <==> InForce(shut, d)
    ensures InForce(open, d) ==> Filter(closed + [shut] + next, At(d)) == [shut]
    ensures InForce(open, d) ==> Filter(closed + [open], At(d)) == [open]
    ensures !InForce(open, d) ==> Filter(closed + [shut] + next, At(d)) == Filter(closed + [open], At(d))
  {
    VersionsOn(closed, shut, next, d);
    FilterAppend(closed, [open], At(d));
  }

  lemma LastWindowOpen(closed: seq<Control>, open: Control, first: Day)
    requires Chain(closed + [open], first, None)
    ensures open.validFrom.Is? && !open.validTo.Is?
  {
    if closed != [] {
      ChainAppend(closed, open, first, None);
    } else {
      assert closed + [open] == [open];
    }
  }

  /** On the day a backdated successor takes force, the later start wins over the version that was in force. */
  lemma BackdatedChangesThePast(closed: seq<Control>, active: Control, r: Retirement, first: Day, before: seq<Control>, after: seq<Control>)
    requires Chain(closed + [Defaults(active)], first, None) && Backdated(active, r)
    requires Offers(before, r.id, closed + [Defaults(active)])
    requires Offers(after, r.id, closed + [Archived(active, r)] + Next(active, r))
    ensures !PastKept(before, after, r.id, r.day)
  {
    var open, shut := Defaults(active), Archived(active, r);
    var row := Succeeding(r.successor.value, Retired(active, r), r);
    var d := Start(row);
    LastWindowOpen(closed, open, first);
    assert Next(active, r) == [row];
    OpenVersionGoverns(before, closed, open, r.id, first, d);
    OffersMembers(after, r.id, closed + [shut] + [row], d);
    assert row in closed + [shut] + [row] && row in Filter(closed + [shut] + [row], At(d));
    ChosenIsLatest(after, r.id, d);
    var winner := Chosen(after, r.id, d).value;
    assert Start(winner) >= d > Start(open);
    assert !SameAnswer(Chosen(before, r.id, d), Chosen(after, r.id, d));
  }

  lemma OpenVersionGoverns(before: seq<Control>, closed: seq<Control>, open: Control, id: string, first: Day, d: Day)
    requires Chain(closed + [open], first, None) && Offers(before, id, closed + [open]) && Start(open) <= d
    ensures Chosen(before, id, d) == Some(open)
  {
    LastWindowOpen(closed, open, first);
    assert open in closed + [open] && open in Filter(closed + [open], At(d));
    ChainTiles(closed + [open], first, None, d);
    var only := Filter(closed + [open], At(d));
    assert only == [only[0]];
    OnlyOneInForce(before, id, closed + [open], d, open);
  }

  // ------------------------------------------------- the past over whole runs

  /** What the store itself answers. */
  function Answer(s: Store, id: string, d: Day): Option<Control> { Chosen(Timeline(s, id), id, d) }

  lemma TimelineOffersItself(s: Store, id: string)
    requires id != ""
    ensures Offers(Timeline(s, id), id, Timeline(s, id))
  {
    FilterAll(Timeline(s, id), HasId(id));
  }

  /** The store's chain is whole: the control is in force, or was until it was retired for good. */
  ghost predicate Whole(s: Store, id: string, first: Day)
  {
    exists end :: Chain(Timeline(s, id), first, end)
  }

  /** Whoever offers the store's versions of the control gives the store's answer. */
  lemma OffersAnswer(s: Store, id: string, first: Day, candidates: seq<Control>, d: Day)
    requires Whole(s, id, first) && Offers(candidates, id, Timeline(s, id))
    ensures Chosen(candidates, id, d) == Answer(s, id, d)
  {
    var end :| Chain(Timeline(s, id), first, end);
    TimelineOffersItself(s, id);
    AsOfFollowsChain(candidates, id, Timeline(s, id), first, end, d);
    AsOfFollowsChain(Timeline(s, id), id, Timeline(s, id), first, end, d);
  }

  lemma WholeOf(s: Store, id: string, first: Day)
    requires InForceOrEnded(s, id, first)
    ensures Whole(s, id, first)
  {
    if now :| Tiled(s, id, first, now) {
      TimelineOfTiled(s, id, first, now);
    } else {
      var end :| Ended(s, id, first, end);
      TimelineOfEnded(s, id, first, end);
    }
  }

  lemma SeamlessKeepsPast(s: Store, r: Retirement, first: Day, clock: Day, d: Day)
    requires Tiled(s, r.id, first, clock) && Seamless(r) && r.id != "" && d < r.day
    ensures SameAnswer(Answer(s, r.id, d), Answer(Apply(s, r), r.id, d))
  {
    TimelineOffersItself(s, r.id);
    TimelineOffersItself(Apply(s, r), r.id);
    PastKeptIff(s, r, first, clock, Timeline(s, r.id), Timeline(Apply(s, r), r.id));
  }

  lemma UnrelatedKeepsTimeline(s: Store, r: Retirement, id: string)
    requires Unrelated(r, id)
    ensures Timeline(Apply(s, r), id) == Timeline(s, id)
  {
    UnrelatedStep(s, r, id);
    TimelineParts(s, id);
    TimelineParts(Apply(s, r), id);
  }

  lemma {:induction false} EndedKeepsTimeline(s: Store, steps: seq<Retirement>, id: string, first: Day, end: Day, clock: Day)
    requires Ended(s, id, first, end) && Orderly(steps, id, clock)
    ensures Timeline(Run(s, steps), id) == Timeline(s, id)
    decreases |steps|
  {
    if steps != [] {
      var r := steps[0];
      if r.id == id {
        NotActive(s.controls, id);
        assert Apply(s, r) == s;
      } else {
        UnrelatedStep(s, r, id);
        UnrelatedKeepsTimeline(s, r, id);
      }
      EndedKeepsTimeline(Apply(s, r), steps[1..], id, first, end, r.day);
    }
  }

  lemma {:induction false} RunKeepsAnswers(s: Store, steps: seq<Retirement>, id: string, first: Day, clock: Day, d: Day)
    requires Tiled(s, id, first, clock) && Orderly(steps, id, clock) && id != "" && (steps != [] ==> d < steps[0].day)
    ensures SameAnswer(Answer(s, id, d), Answer(Run(s, steps), id, d))
    decreases |steps|
  {
    if steps != [] {
      var r := steps[0];
      assert Run(s, steps) == Run(Apply(s, r), steps[1..]);
      if r.id != id {
        UnrelatedStep(s, r, id);
        UnrelatedKeepsTimeline(s, r, id);
        RunKeepsAnswers(Apply(s, r), steps[1..], id, first, r.day, d);
      } else {
        SeamlessKeepsPast(s, r, first, clock, d);
        SeamlessStep(s, r, first, clock);
        if r.successor.Some? {
          RunKeepsAnswers(Apply(s, r), steps[1..], id, first, r.day, d);
        } else {
          EndedKeepsTimeline(Apply(s, r), steps[1..], id, first, r.day, r.day);
        }
      }
    }
  }

  /** Over every orderly run, what the catalog said about a day before the first step it says afterwards. */
  lemma RunKeepsPast(s: Store, steps: seq<Retirement>, id: string, first: Day, clock: Day, before: seq<Control>, after: seq<Control>)
    requires Tiled(s, id, first, clock) && Orderly(steps, id, clock) && steps != []
    requires Offers(before, id, Timeline(s, id)) && Offers(after, id, Timeline(Run(s, steps), id))
    ensures PastKept(before, after, id, steps[0].day)
  {
    WholeOf(s, id, first);
    RunKeepsTiling(s, steps, id, first, clock);
    WholeOf(Run(s, steps), id, first);
    forall d: Day | d < steps[0].day ensures SameAnswer(Chosen(before, id, d), Chosen(after, id, d)) {
      OffersAnswer(s, id, first, before, d);
      OffersAnswer(Run(s, steps), id, first, after, d);
      RunKeepsAnswers(s, steps, id, first, clock, d);
    }
  }

  // ------------------------------------------------------------ the two misses

  /** The successor has a date of its own that counts, after the start of the version it replaces, and it is not the retirement day. */
  predicate DatedApart(active: Control, r: Retirement)
  {
    && r.successor.Some? && r.successor.value.validFrom.Is? && r.successor.value.validFrom.value != r.day
    && (Defaults(active).validFrom.Is? ==> Defaults(active).validFrom.value < r.successor.value.validFrom.value)
  }

  /** After a retirement with a successor of the same control, the windows tile exactly when it is not dated apart. */
  lemma TilesIffSuccessorStartsToday(s: Store, r: Retirement, first: Day, clock: Day)
    requires Tiled(s, r.id, first, clock) && clock <= r.day && r.successor.Some?
    requires r.successor.value.id == Absent || r.successor.value.id == Is(r.id)
    ensures Chain(Timeline(Apply(s, r), r.id), first, None) <==> !DatedApart(Filter(s.controls, HasId(r.id))[0], r)
  {
    var active, closed := Filter(s.controls, HasId(r.id))[0], Filter(s.history, HasId(r.id));
    var shut, row := Archived(active, r), Succeeding(r.successor.value, Retired(active, r), r);
    RetirementTimelines(s, r, first, clock);
    assert Next(active, r) == [row];
    ChainAppend(closed + [shut], row, first, None);
    ClosedEnd(closed, Defaults(active), shut, first, r.day);
    if Chain(closed + [shut], first, Some(Start(row))) {
      ChainEnds(closed + [shut], first, Start(row));
    }
  }

  lemma ClosedEnd(closed: seq<Control>, open: Control, shut: Control, first: Day, day: Day)
    requires Chain(closed + [open], first, None) && shut.validFrom == open.validFrom && shut.validTo == Is(day) && Start(open) <= day
    ensures Chain(closed + [shut], first, Some(day))
  {
    ChainSucceeds(closed, open, shut, open.(validFrom := Is(day), validTo := Null), first, day);
  }

  lemma {:induction false} ChainEnds(s: seq<Control>, first: Day, end: Day)
    requires Chain(s, first, Some(end))
    ensures s[|s| - 1].validTo == Is(end)
  {
    if |s| > 1 {
      ChainEnds(s[1..], s[0].validTo.value, end);
    }
  }

  // ------------------------------------------------------------------ examples

  lemma RetireOnly(c: Control, r: Retirement)
    requires c.id == Is(r.id) && r.successor.Some?
    ensures Versions(Store([c], [])) == [Defaults(c)]
    ensures Versions(Apply(Store([c], []), r)) == [Archived(c, r), Succeeding(r.successor.value, Retired(c, r), r)]
  {
    var row := Succeeding(r.successor.value, Retired(c, r), r);
    assert FirstWithId([c], r.id) == Some(0);
    assert Apply(Store([c], []), r) == Store([row], [Archived(c, r)]) by {
      assert [c][0 := row] == [row] && [] + [Archived(c, r)] == [Archived(c, r)];
    }
    assert Defaults(row) == row;
  }

  lemma ChosenOfOne(a: Control, id: string, d: Day)
    ensures Chosen([a], id, d) == if Governs(a, id, d) then Some(a) else None
  {
    assert [a][..0] == [];
  }

  lemma ChosenOfTwo(a: Control, b: Control, id: string, d: Day)
    ensures Chosen([a, b], id, d)
         == if !Governs(b, id, d) then Chosen([a], id, d)
            else if Chosen([a], id, d).None? || (b.validFrom.Is? && b.validFrom.value >= Start(a)) then Some(b)
            else Some(a)
  {
    assert [a, b][..1] == [a];
    ChosenOfOne(a, id, d);
  }

  function ExampleControl(): Control
  {
    Control(Is("AC-1"), Is(INITIAL), Is(10), Null, Null, Null, Null, Is("active"), None, None, "old", None)
  }

  /** AC-1 has been in force since day 10 and is replaced on day 30 by a successor with the given date. */
  function ExampleRetirement(date: Day): Retirement
  {
    Retirement("AC-1", 30, "revised", "", Some(ExampleControl().(validFrom := Is(date), body := "new")), 0)
  }

  lemma ExampleVersions(date: Day)
    requires date > 10
    ensures Versions(Store([ExampleControl()], [])) == [ExampleControl()]
    ensures var after := Versions(Apply(Store([ExampleControl()], []), ExampleRetirement(date)));
            && |after| == 2
            && after[0].id == Is("AC-1") && after[0].validFrom == Is(10) && after[0].validTo == Is(30) && after[0].body == "old"
            && after[1].id == Is("AC-1") && after[1].validFrom == Is(date) && after[1].validTo == Null && after[1].body == "new"
  {
    RetireOnly(ExampleControl(), ExampleRetirement(date));
  }

  /** A successor dated day 20: the answer for day 20 was the old version, and is the new one after the retirement. */
  lemma BackdatedExample()
    ensures var s := Store([ExampleControl()], []);
            && Backdated(ExampleControl(), ExampleRetirement(20))
            && Chosen(Versions(s), "AC-1", 20).Some? && Chosen(Versions(s), "AC-1", 20).value.body == "old"
            && Chosen(Versions(Apply(s, ExampleRetirement(20))), "AC-1", 20).Some?
            && Chosen(Versions(Apply(s, ExampleRetirement(20))), "AC-1", 20).value.body == "new"
  {
    ExampleVersions(20);
    ChosenOfOne(ExampleControl(), "AC-1", 20);
    var after := Versions(Apply(Store([ExampleControl()], []), ExampleRetirement(20)));
    assert after == [after[0], after[1]];
    ChosenOfTwo(after[0], after[1], "AC-1", 20);
    ChosenOfOne(after[0], "AC-1", 20);
  }

  /** A successor dated day 40: on day 35 the control was in force before the retirement, and no version is after it. */
  lemma GapExample()
    ensures var s := Store([ExampleControl()], []);
            && Chosen(Versions(s), "AC-1", 35).Some?
            && Chosen(Versions(Apply(s, ExampleRetirement(40))), "AC-1", 35).None?
  {
    ExampleVersions(40);
    ChosenOfOne(ExampleControl(), "AC-1", 35);
    var after := Versions(Apply(Store([ExampleControl()], []), ExampleRetirement(40)));
    assert after == [after[0], after[1]];
    ChosenOfTwo(after[0], after[1], "AC-1", 35);
    ChosenOfOne(after[0], "AC-1", 35);
  }
}
