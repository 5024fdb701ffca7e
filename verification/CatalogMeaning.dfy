/** What a retirement writes and what the catalog as of a date shows, member by member (catalog_versions.py). */
module CatalogMeaning {
  import opened Outcomes
  import opened CatalogVersions

  // -------------------------------------------------------------------- as of

  /** The version belongs to the control and is in force on the day: from its first day on, before its last one. */
  ghost predicate Current(c: Control, id: string, d: Day)
  {
    id != "" && c.id == Is(id) && !(c.validFrom.Is? && d < c.validFrom.value) && !(c.validTo.Is? && c.validTo.value <= d)
  }

  /** The version at `k` is in force; a version in force before it starts no later, one behind it that has a start starts earlier. */
  ghost predicate Settles(candidates: seq<Control>, k: int, id: string, d: Day)
  {
    && 0 <= k < |candidates| && Current(candidates[k], id, d)
    && (forall j :: 0 <= j < k && Current(candidates[j], id, d) ==> NoLater(candidates[j], candidates[k]))
    && (forall j :: k < j < |candidates| && Current(candidates[j], id, d) ==> StartsEarlier(candidates[j], candidates[k]))
  }

  ghost predicate NoLater(other: Control, c: Control)
  {
    c.validFrom.Is? && (other.validFrom.Is? ==> other.validFrom.value <= c.validFrom.value)
  }

  ghost predicate StartsEarlier(other: Control, c: Control)
  {
    other.validFrom.Is? ==> c.validFrom.Is? && other.validFrom.value < c.validFrom.value
  }

  /** No version is shown exactly when none is in force; otherwise one that settles the pass. */
  lemma {:induction false} ChosenOnFields(candidates: seq<Control>, id: string, d: Day)
    ensures Chosen(candidates, id, d).None? <==> forall c :: c in candidates ==> !Current(c, id, d)
    ensures Chosen(candidates, id, d).Some? ==>
              exists k :: Settles(candidates, k, id, d) && candidates[k] == Chosen(candidates, id, d).value
  {
    if candidates != [] {
      var n := |candidates| - 1;
      var c := candidates[n];
      ChosenOnFields(candidates[..n], id, d);
      assert candidates == candidates[..n] + [c];
      assert Governs(c, id, d) <==> Current(c, id, d);
      if Chosen(candidates[..n], id, d).Some? {
        var k :| Settles(candidates[..n], k, id, d) && candidates[..n][k] == Chosen(candidates[..n], id, d).value;
        NextSettles(candidates, k, id, d);
      } else if Current(c, id, d) {
        assert Settles(candidates, n, id, d);
      }
    }
  }

  lemma NextSettles(candidates: seq<Control>, k: int, id: string, d: Day)
    requires candidates != [] && Settles(candidates[..|candidates| - 1], k, id, d)
    ensures var n := |candidates| - 1;
            if Current(candidates[n], id, d) && !StartsEarlier(candidates[n], candidates[k])
            then Settles(candidates, n, id, d) else Settles(candidates, k, id, d)
  {
    var n := |candidates| - 1;
    assert forall j :: 0 <= j < n ==> candidates[..n][j] == candidates[j];
  }

  /** Only one position settles the pass. */
  lemma SettlesOnce(candidates: seq<Control>, k: int, l: int, id: string, d: Day)
    requires Settles(candidates, k, id, d) && Settles(candidates, l, id, d)
    ensures k == l
  {
  }

  // ----------------------------------------------------------------- defaults

  /** Missing version members are filled in; every other member is kept. */
  lemma DefaultsOnFields(c: Control)
    ensures var f := Defaults(c);
            && f.id == c.id && f.body == c.body && f.retiredAt == c.retiredAt && f.reviewed == c.reviewed && f.reconciled == c.reconciled
            && f.version == (if c.version == Absent then Is(Numbered(1, 0, "0")) else c.version)
            && (c.validFrom != Absent ==> f.validFrom == c.validFrom)
            && (c.validFrom == Absent ==>
                  if c.reviewed.Some? then f.validFrom == Is(c.reviewed.value)
                  else if c.reconciled.Some? then f.validFrom == Is(c.reconciled.value) else f.validFrom == Null)
            && f.validTo == (if c.validTo == Absent then Null else c.validTo)
            && f.supersedes == (if c.supersedes == Absent then Null else c.supersedes)
            && f.supersededBy == (if c.supersededBy == Absent then Null else c.supersededBy)
            && (c.reason != Absent ==> f.reason == c.reason)
            && (c.reason == Absent ==> f.reason == Is("Initial versioned catalog baseline"))
            && (c.status != Absent ==> f.status == c.status)
            && (c.status == Absent ==> f.status == Is(if c.validTo.Is? then "retired" else "active"))
  {
  }

  // --------------------------------------------------------------- retirement

  /** The first active version of the control. */
  ghost predicate FirstOf(controls: seq<Control>, id: string, i: int)
  {
    0 <= i < |controls| && controls[i].id == Is(id) && forall j :: 0 <= j < i ==> controls[j].id != Is(id)
  }

  /** Only the first active version of the control changes hands: history gains it as its last row, its successor takes its place. */
  lemma RetirementMoves(s: Store, r: Retirement)
    ensures (forall i :: !FirstOf(s.controls, r.id, i)) ==> Apply(s, r) == s
    ensures forall i :: FirstOf(s.controls, r.id, i) ==>
              && |Apply(s, r).history| == |s.history| + 1 && Apply(s, r).history[..|s.history|] == s.history
              && Closes(s.controls[i], Apply(s, r).history[|s.history|], r)
              && (if r.successor.Some?
                  then && |Apply(s, r).controls| == |s.controls|
                       && (forall j :: 0 <= j < |s.controls| && j != i ==> Apply(s, r).controls[j] == s.controls[j])
                       && Succeeds(r.successor.value, Apply(s, r).history[|s.history|], Apply(s, r).controls[i], r)
                  else Apply(s, r).controls == s.controls[..i] + s.controls[i + 1..])
  {
    var found := FirstWithId(s.controls, r.id);
    if found.Some? {
      var i: nat := found.value;
      assert FirstOf(s.controls, r.id, i);
      ClosesActive(s.controls[i], r);
      if r.successor.Some? { SucceedsActive(s.controls[i], r); }
    } else {
      forall i ensures !FirstOf(s.controls, r.id, i) {
        if 0 <= i < |s.controls| { assert s.controls[i] in s.controls; }
      }
    }
  }

  /** The closed version: it ends on the day of retirement, for the given reason, and keeps its text, version and start. */
  ghost predicate Closes(active: Control, row: Control, r: Retirement)
  {
    && row.id == active.id && row.body == active.body
    && row.version == (if active.version == Absent then Is(Numbered(1, 0, "0")) else active.version)
    && row.validFrom == Defaults(active).validFrom
    && row.validTo == Is(r.day) && row.status == Is("retired") && row.reason == Is(r.reason) && row.retiredAt == Some(r.retiredAt)
    && row.supersedes == (if active.supersedes == Absent then Null else active.supersedes)
    && (r.supersededBy != "" ==> row.supersededBy == Is(r.supersededBy))
    && (r.supersededBy == "" ==> row.supersededBy == if active.supersededBy == Absent then Null else active.supersededBy)
  }

  /** The successor: open-ended and active, linked back, under a version of its own. */
  ghost predicate Succeeds(given: Control, closed: Control, row: Control, r: Retirement)
  {
    && row.body == given.body && row.id == (if given.id == Absent then Is(r.id) else given.id)
    && row.validTo == Null && row.status == Is("active")
    && row.supersedes == Is((r.id, closed.version))
    && row.reason == (if given.reason == Absent then Is("Initial versioned catalog baseline") else given.reason)
    && row.supersededBy == (if given.supersededBy == Absent then Null else given.supersededBy)
    && row.version == (if OwnVersion(given, closed) then OwnOrInitial(given) else Is(NextMinor(closed)))
    && row.validFrom == (if OwnStart(given, closed) then given.validFrom else Is(r.day))
  }

  ghost function OwnOrInitial(given: Control): Field<Version> { if given.version == Absent then Is(Numbered(1, 0, "0")) else given.version }

  /** The successor's own version counts when it has one that is not the closed one's. */
  ghost predicate OwnVersion(given: Control, closed: Control)
  {
    OwnOrInitial(given) != Null && OwnOrInitial(given) != closed.version
  }

  ghost function NextMinor(closed: Control): Version
  {
    if closed.version.Is? && closed.version.value.Numbered? then Numbered(closed.version.value.major, closed.version.value.minor + 1, "0")
    else Numbered(1, 1, "0")
  }

  /** The successor's own start counts when it lies after that of the closed version. */
  ghost predicate OwnStart(given: Control, closed: Control)
  {
    given.validFrom.Is? && !(closed.validFrom.Is? && given.validFrom.value <= closed.validFrom.value)
  }

  lemma ClosesActive(active: Control, r: Retirement)
    ensures Closes(active, Retired(active, r).(retiredAt := Some(r.retiredAt)), r)
  {
    DefaultsOnFields(active);
  }

  lemma SucceedsActive(active: Control, r: Retirement)
    requires r.successor.Some?
    ensures var retired := Retired(active, r);
            Succeeds(r.successor.value, retired.(retiredAt := Some(r.retiredAt)), Succeeding(r.successor.value, retired, r), r)
  {
    DefaultsOnFields(r.successor.value);
  }
}
