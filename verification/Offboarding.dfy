/** Offboarding check: HR terminations joined to identity-provider accounts (offboarding.py). */
module Offboarding {
  import opened Orders
  import opened Outcomes
  import opened EvidenceUpsert

  const OFFBOARDING_CONNECTOR_ID := "hris-idp-offboarding"

  type Day = int

  /** Microseconds in a day. */
  const DAY := 86_400_000_000

  /** `now.date()` */
  function DayOf(now: Instant): Day { now / DAY }

  datatype Account = Account(source: string, accountId: string, canAuthenticate: bool)

  /** What the check reads of a row. E-mails are normalised, and empty when unusable. */
  datatype Reading =
    | Employment(assetId: string, workEmail: string, terminatedOn: Option<Day>)
    | UserAccess(login: string, account: Account)
    | Unrelated

  datatype Outcome = NoAccountMatched | Deprovisioned | ActiveAfterTermination | WithinGracePeriod

  datatype Finding = Finding(hr: Row, outcome: Outcome, days: int, matched: nat, active: seq<Account>)

  /** How rows are read and written, and the configured grace period. */
  datatype Format = Format(read: string -> Reading, write: Finding -> string, spell: Instant -> string,
                           stable: string -> string, graceDays: nat)

  /** `is_offboarding_input` */
  predicate IsInput(f: Format, row: Row) { !f.read(row.body).Unrelated? }

  predicate IsAccount(f: Format, row: Row) { f.read(row.body).UserAccess? && f.read(row.body).login != "" }

  predicate TerminatedBy(f: Format, row: Row, asOf: Day)
  {
    var reading := f.read(row.body);
    reading.Employment? && reading.terminatedOn.Some? && reading.terminatedOn.value <= asOf
  }

  function Employments(f: Format): Row -> bool { (row: Row) => f.read(row.body).Employment? }

  function Accounts(f: Format): Row -> bool { (row: Row) => IsAccount(f, row) }

  function AccountsOf(f: Format, email: string): Row -> bool
  {
    (row: Row) => IsAccount(f, row) && f.read(row.body).login == email
  }

  function Terminated(f: Format, asOf: Day): Row -> bool { (row: Row) => TerminatedBy(f, row, asOf) }

  function AccountIn(f: Format): Row -> Account
  {
    (row: Row) => if f.read(row.body).UserAccess? then f.read(row.body).account else Account("", "", false)
  }

  function Active(): Account -> bool { (a: Account) => a.canAuthenticate }

  /** `accounts[email]`, in row order. */
  function Matched(f: Format, rows: seq<Row>, email: string): seq<Account>
  {
    Map(Filter(rows, AccountsOf(f, email)), AccountIn(f))
  }

  /** The judgement of one terminated employee. */
  function Judged(f: Format, hr: Row, matched: seq<Account>, asOf: Day): Finding
    requires TerminatedBy(f, hr, asOf)
  {
    var days := asOf - f.read(hr.body).terminatedOn.value;
    var active := Filter(matched, Active());
    var outcome := if matched == [] then NoAccountMatched
                   else if active == [] then Deprovisioned
                   else if days > f.graceDays then ActiveAfterTermination
                   else WithinGracePeriod;
    Finding(hr, outcome, days, |matched|, active)
  }

  /** `_event` */
  function EventOf(f: Format, finding: Finding, now: Instant): Row
  {
    var reading := f.read(finding.hr.body);
    Row("", "correlation-" + f.stable(if reading.Employment? then reading.assetId else ""), now, f.spell(now),
        None, Some(now), f.write(finding))
  }

  function EventFor(f: Format, rows: seq<Row>, now: Instant): Row -> Row
  {
    (hr: Row) => if TerminatedBy(f, hr, DayOf(now))
                 then EventOf(f, Judged(f, hr, Matched(f, rows, f.read(hr.body).workEmail), DayOf(now)), now) else hr
  }

  /** `correlate_offboarding`: one row per employee terminated by the day of `now`, provided both kinds of evidence exist. */
  function Correlated(f: Format, rows: seq<Row>, now: Instant): seq<Row>
  {
    if Filter(rows, Employments(f)) == [] || Filter(rows, Accounts(f)) == [] then []
    else Map(Filter(rows, Terminated(f, DayOf(now))), EventFor(f, rows, now))
  }

  // ----------------------------------------------------------------- the loops

  function Get(accounts: map<string, seq<Account>>, email: string): seq<Account>
  {
    if email in accounts then accounts[email] else []
  }

  ghost predicate Indexed(f: Format, rows: seq<Row>, accounts: map<string, seq<Account>>)
  {
    && (accounts == map[] <==> Filter(rows, Accounts(f)) == [])
    && forall email :: Get(accounts, email) == Matched(f, rows, email)
  }

  method Correlate(f: Format, rows: seq<Row>, now: Instant) returns (out: seq<Row>)
    ensures out == Correlated(f, rows, now)
  {
    var hrRows, accounts := Collect(f, rows);
    if hrRows == [] || accounts == map[] { return []; }
    out := [];
    for i := 0 to |hrRows|
      invariant out == Map(Filter(hrRows[..i], Terminated(f, DayOf(now))), EventFor(f, rows, now))
    {
      var hr := hrRows[i];
      EventsNext(f, rows, hrRows, i, now);
      if TerminatedBy(f, hr, DayOf(now)) {
        out := out + [EventOf(f, Judged(f, hr, Get(accounts, f.read(hr.body).workEmail), DayOf(now)), now)];
      }
    }
    assert hrRows[..|hrRows|] == hrRows;
    FilterFilter(rows, Employments(f), Terminated(f, DayOf(now)));
  }

  lemma EventsNext(f: Format, rows: seq<Row>, hrRows: seq<Row>, i: nat, now: Instant)
    requires i < |hrRows|
    ensures Map(Filter(hrRows[..i + 1], Terminated(f, DayOf(now))), EventFor(f, rows, now))
         == Map(Filter(hrRows[..i], Terminated(f, DayOf(now))), EventFor(f, rows, now))
            + if TerminatedBy(f, hrRows[i], DayOf(now)) then [EventFor(f, rows, now)(hrRows[i])] else []
  {
    var p, before := Terminated(f, DayOf(now)), Filter(hrRows[..i], Terminated(f, DayOf(now)));
    FilterNext(hrRows, i, p);
    MapAppend(before, if p(hrRows[i]) then [hrRows[i]] else [], EventFor(f, rows, now));
  }

  method Collect(f: Format, rows: seq<Row>) returns (hrRows: seq<Row>, accounts: map<string, seq<Account>>)
    ensures hrRows == Filter(rows, Employments(f)) && Indexed(f, rows, accounts)
  {
    hrRows, accounts := [], map[];
    for i := 0 to |rows|
      invariant hrRows == Filter(rows[..i], Employments(f)) && Indexed(f, rows[..i], accounts)
    {
      FilterNext(rows, i, Employments(f));
      IndexStep(f, rows, i, accounts);
      match f.read(rows[i].body)
      case Employment(_, _, _) => hrRows := hrRows + [rows[i]];
      case UserAccess(login, account) =>
        if login != "" { accounts := accounts[login := Get(accounts, login) + [account]]; }
      case Unrelated =>
    }
    assert rows[..|rows|] == rows;
  }

  lemma IndexStep(f: Format, rows: seq<Row>, i: nat, accounts: map<string, seq<Account>>)
    requires i < |rows| && Indexed(f, rows[..i], accounts)
    ensures IsAccount(f, rows[i]) ==>
      var login, account := f.read(rows[i].body).login, f.read(rows[i].body).account;
      Indexed(f, rows[..i + 1], accounts[login := Get(accounts, login) + [account]])
    ensures !IsAccount(f, rows[i]) ==> Indexed(f, rows[..i + 1], accounts)
  {
    var row, before, after := rows[i], rows[..i], rows[..i + 1];
    FilterNext(rows, i, Accounts(f));
    if IsAccount(f, row) {
      var login := f.read(row.body).login;
      var next := accounts[login := Get(accounts, login) + [f.read(row.body).account]];
      forall email ensures Get(next, email) == Matched(f, after, email) { MatchedNext(f, rows, i, email); }
    } else {
      forall email ensures Get(accounts, email) == Matched(f, after, email) { MatchedNext(f, rows, i, email); }
    }
  }

  lemma MatchedNext(f: Format, rows: seq<Row>, i: nat, email: string)
    requires i < |rows|
    ensures Matched(f, rows[..i + 1], email)
         == if IsAccount(f, rows[i]) && f.read(rows[i].body).login == email
            then Matched(f, rows[..i], email) + [f.read(rows[i].body).account] else Matched(f, rows[..i], email)
  {
    FilterNext(rows, i, AccountsOf(f, email));
    var before := Filter(rows[..i], AccountsOf(f, email));
    assert before + [] == before;
    MapAppend(before, [rows[i]], AccountIn(f));
  }

  // ------------------------------------------------------- what the check says

  /** The employee's accounts: those that share the work e-mail. */
  ghost predicate Owns(f: Format, hr: Row, row: Row)
    requires f.read(hr.body).Employment?
  {
    f.read(row.body).UserAccess? && f.read(row.body).login != "" && f.read(row.body).login == f.read(hr.body).workEmail
  }

  /** The employee has an account. */
  ghost predicate HasAccount(f: Format, rows: seq<Row>, hr: Row)
    requires f.read(hr.body).Employment?
  {
    exists row :: row in rows && Owns(f, hr, row)
  }

  /** The employee has an account that can still authenticate. */
  ghost predicate StillActive(f: Format, rows: seq<Row>, hr: Row)
    requires f.read(hr.body).Employment?
  {
    exists row :: row in rows && Owns(f, hr, row) && f.read(row.body).account.canAuthenticate
  }

  /** A violation is an active account after the grace period; a pass needs an account and all of them disabled;
      without an account nothing is claimed. */
  lemma OutcomeMeaning(f: Format, rows: seq<Row>, hr: Row, asOf: Day)
    requires TerminatedBy(f, hr, asOf)
    ensures var outcome := Judged(f, hr, Matched(f, rows, f.read(hr.body).workEmail), asOf).outcome;
            && (outcome == ActiveAfterTermination <==>
                  StillActive(f, rows, hr) && asOf - f.read(hr.body).terminatedOn.value > f.graceDays)
            && (outcome == WithinGracePeriod <==>
                  StillActive(f, rows, hr) && asOf - f.read(hr.body).terminatedOn.value <= f.graceDays)
            && (outcome == Deprovisioned <==> HasAccount(f, rows, hr) && !StillActive(f, rows, hr))
            && (outcome == NoAccountMatched <==> !HasAccount(f, rows, hr))
  {
    AccountsFound(f, rows, hr);
    ActiveFound(f, rows, hr);
  }

  lemma AccountsFound(f: Format, rows: seq<Row>, hr: Row)
    requires f.read(hr.body).Employment?
    ensures Matched(f, rows, f.read(hr.body).workEmail) != [] <==> HasAccount(f, rows, hr)
  {
    var email := f.read(hr.body).workEmail;
    FilterNonempty(rows, AccountsOf(f, email));
    if row :| row in rows && Owns(f, hr, row) { assert AccountsOf(f, email)(row); }
  }

  lemma ActiveFound(f: Format, rows: seq<Row>, hr: Row)
    requires f.read(hr.body).Employment?
    ensures Filter(Matched(f, rows, f.read(hr.body).workEmail), Active()) != [] <==> StillActive(f, rows, hr)
  {
    var email := f.read(hr.body).workEmail;
    var own, matched := Filter(rows, AccountsOf(f, email)), Matched(f, rows, email);
    FilterNonempty(matched, Active());
    if a :| a in matched && Active()(a) {
      MapMembers(own, AccountIn(f), a);
      var row :| row in own && AccountIn(f)(row) == a;
      assert row in rows && Owns(f, hr, row);
    }
    if row :| row in rows && Owns(f, hr, row) && f.read(row.body).account.canAuthenticate {
      assert row in own;
      MapMembers(own, AccountIn(f), AccountIn(f)(row));
      assert Active()(AccountIn(f)(row));
    }
  }

  // ------------------------------------------------------ what the check writes

  /** The employee has left by the day of the check. */
  ghost predicate HasLeft(f: Format, row: Row, now: Instant)
  {
    && f.read(row.body).Employment? && f.read(row.body).terminatedOn.Some?
    && f.read(row.body).terminatedOn.value <= now / 86_400_000_000
  }

  /** The finding about an employee: the days since the termination, all accounts counted, the usable ones listed, and the outcome. */
  ghost predicate FindingOf(f: Format, rows: seq<Row>, hr: Row, now: Instant, finding: Finding)
    requires HasLeft(f, hr, now)
  {
    && finding.hr == hr && finding.days == now / 86_400_000_000 - f.read(hr.body).terminatedOn.value
    && finding.matched == |Filter(rows, (row: Row) => Owns(f, hr, row))|
    && (forall a :: a in finding.active <==>
          a.canAuthenticate && exists row :: row in rows && Owns(f, hr, row) && f.read(row.body).account == a)
    && finding.outcome == (if !HasAccount(f, rows, hr) then NoAccountMatched
                           else if !StillActive(f, rows, hr) then Deprovisioned
                           else if finding.days <= f.graceDays then WithinGracePeriod
                           else ActiveAfterTermination)
  }

  /** The row about an employee, dated and collected at the moment of the check. */
  ghost predicate Reports(f: Format, rows: seq<Row>, hr: Row, now: Instant, out: Row)
    requires HasLeft(f, hr, now)
  {
    && out.connectorId == "" && out.eventId == "correlation-" + f.stable(f.read(hr.body).assetId)
    && out.eventTime == now && out.timeText == f.spell(now) && out.collectedAt == None && out.evidenceCollectedAt == Some(now)
    && exists finding :: FindingOf(f, rows, hr, now, finding) && out.body == f.write(finding)
  }

  /** With an employment record and a usable account among the rows, the check reports on every employee who has left, in
      row order; without either it reports nothing. */
  lemma CorrelatedMeaning(f: Format, rows: seq<Row>, now: Instant, left: Row -> bool)
    requires forall row :: left(row) <==> HasLeft(f, row, now)
    ensures var out := Correlated(f, rows, now);
            if (exists row :: row in rows && f.read(row.body).Employment?)
               && (exists row :: row in rows && f.read(row.body).UserAccess? && f.read(row.body).login != "")
            then |out| == |Filter(rows, left)|
                 && forall i :: 0 <= i < |out| ==>
                      HasLeft(f, Filter(rows, left)[i], now) && Reports(f, rows, Filter(rows, left)[i], now, out[i])
            else out == []
  {
    FilterNonempty(rows, Employments(f));
    FilterNonempty(rows, Accounts(f));
    FilterSame(rows, left, Terminated(f, DayOf(now)));
    if Filter(rows, Employments(f)) != [] && Filter(rows, Accounts(f)) != [] {
      var leavers := Filter(rows, left);
      forall i | 0 <= i < |leavers| ensures HasLeft(f, leavers[i], now) && Reports(f, rows, leavers[i], now, Correlated(f, rows, now)[i]) {
        assert leavers[i] in leavers;
        EventReports(f, rows, leavers[i], now);
      }
    }
  }

  lemma EventReports(f: Format, rows: seq<Row>, hr: Row, now: Instant)
    requires HasLeft(f, hr, now)
    ensures TerminatedBy(f, hr, DayOf(now)) && Reports(f, rows, hr, now, EventFor(f, rows, now)(hr))
  {
    var finding := Judged(f, hr, Matched(f, rows, f.read(hr.body).workEmail), DayOf(now));
    JudgedMeaning(f, rows, hr, now);
    assert FindingOf(f, rows, hr, now, finding);
  }

  lemma JudgedMeaning(f: Format, rows: seq<Row>, hr: Row, now: Instant)
    requires HasLeft(f, hr, now)
    ensures TerminatedBy(f, hr, DayOf(now))
    ensures FindingOf(f, rows, hr, now, Judged(f, hr, Matched(f, rows, f.read(hr.body).workEmail), DayOf(now)))
  {
    var email := f.read(hr.body).workEmail;
    OutcomeMeaning(f, rows, hr, DayOf(now));
    FilterSame(rows, AccountsOf(f, email), (row: Row) => Owns(f, hr, row));
    forall a ensures a in Filter(Matched(f, rows, email), Active())
                     <==> a.canAuthenticate && exists row :: row in rows && Owns(f, hr, row) && f.read(row.body).account == a {
      MapMembers(Filter(rows, AccountsOf(f, email)), AccountIn(f), a);
    }
  }

  // ------------------------------------------------------------------ the clock

  /** Nothing is derived exactly when there is no usable account, or nobody has been terminated by the day. */
  lemma NothingDerivedIff(f: Format, rows: seq<Row>, now: Instant)
    ensures Correlated(f, rows, now) == [] <==>
              (forall row :: row in rows ==> !IsAccount(f, row)) || forall row :: row in rows ==> !TerminatedBy(f, row, DayOf(now))
  {
    FilterNonempty(rows, Employments(f));
    FilterNonempty(rows, Accounts(f));
    FilterNonempty(rows, Terminated(f, DayOf(now)));
    if row :| row in rows && TerminatedBy(f, row, DayOf(now)) { assert Employments(f)(row) && Terminated(f, DayOf(now))(row); }
    if row :| row in rows && IsAccount(f, row) { assert Accounts(f)(row); }
  }

  /** Every derived row carries the moment of the check. */
  lemma DerivedRowsCarryMoment(f: Format, rows: seq<Row>, now: Instant)
    ensures forall row :: row in Correlated(f, rows, now) ==> row.eventTime == now && row.connectorId == ""
  {
    var terminated := Filter(rows, Terminated(f, DayOf(now)));
    forall row | row in Correlated(f, rows, now) ensures row.eventTime == now && row.connectorId == "" {
      MapMembers(terminated, EventFor(f, rows, now), row);
    }
  }

  function Later(now: Instant, other: Instant): Instant { if now < other then other else now }

  /** Two checks of the same rows derive the same exactly when they share the moment or neither finds anything. */
  lemma SameDerivedIff(f: Format, rows: seq<Row>, now: Instant, other: Instant)
    ensures Correlated(f, rows, now) == Correlated(f, rows, other) <==>
            || now == other
            || (forall row :: row in rows ==> !IsAccount(f, row))
            || forall row :: row in rows ==> !TerminatedBy(f, row, DayOf(Later(now, other)))
  {
    DerivedRowsCarryMoment(f, rows, now);
    DerivedRowsCarryMoment(f, rows, other);
    NothingDerivedIff(f, rows, now);
    NothingDerivedIff(f, rows, other);
    DaysAdvance(now, Later(now, other));
    DaysAdvance(other, Later(now, other));
    var a, b := Correlated(f, rows, now), Correlated(f, rows, other);
    if a == b && a != [] { assert a[0] in a && b[0] in b; }
  }

  lemma DaysAdvance(now: Instant, later: Instant)
    requires now <= later
    ensures DayOf(now) <= DayOf(later)
  {
  }
}
