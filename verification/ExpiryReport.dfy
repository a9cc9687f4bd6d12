/** The `doctor` report on assumption records that have lapsed or are about to. */
module ExpiryReport {
  import opened Base
  import opened Order
  import opened CivilDate
  import opened DateText
  import opened Decimal

  const DAY: nat := 86_400

  type Seconds = s: nat | s <= U64_MAX

  datatype AssumptionState = Proposed | Approved | Active | Expired | Revoked | FailedReview
  datatype Assumption = Assumption(id: string, state: AssumptionState, expires: Option<string>)
  datatype Manifest = Manifest(name: string, assumptions: seq<Assumption>)

  datatype Finding =
    | Lapsed(state: AssumptionState)
    | NoExpiry
    | BadFormat(expires: string)
    | ExpiredOn(expires: string)
    | ExpiresSoon(expires: string)

  datatype Issue = Issue(package: string, assumption: string, finding: Finding)

  function DateOf(secs: Seconds): string {
    DateStr(CivilFromDays(secs / DAY))
  }

  /** The clock reading moved `days` days on, saturating at the largest 64-bit value. */
  function Later(secs: Seconds, days: nat): Seconds {
    if secs + days * DAY <= U64_MAX then secs + days * DAY else U64_MAX
  }

  /** What is reported about one assumption, given the texts of today and of the horizon. */
  function Judge(a: Assumption, today: string, soon: string): Option<Finding> {
    match a.state
    case Expired => Some(Lapsed(a.state))
    case Revoked => Some(Lapsed(a.state))
    case Proposed => None
    case FailedReview => None
    case _ =>
      match a.expires
      case None => Some(NoExpiry)
      case Some(e) =>
        if !IsIsoDate(e) then Some(BadFormat(e))
        else if StrLe(e, today) then Some(ExpiredOn(e))
        else if StrLe(e, soon) then Some(ExpiresSoon(e))
        else None
  }

  function ManifestIssues(name: string, s: seq<Assumption>, today: string, soon: string): seq<Issue> {
    if s == [] then []
    else
      var k := |s| - 1;
      ManifestIssues(name, s[..k], today, soon)
      + (match Judge(s[k], today, soon) case Some(f) => [Issue(name, s[k].id, f)] case None => [])
  }

  function AllIssues(ms: seq<Manifest>, today: string, soon: string): seq<Issue> {
    if ms == [] then []
    else
      var m := ms[|ms| - 1];
      AllIssues(ms[..|ms| - 1], today, soon) + ManifestIssues(m.name, m.assumptions, today, soon)
  }

  /** One package's share of the report, added to what was found before. */
  method CheckManifest(m: Manifest, today: string, soon: string, found: seq<Issue>) returns (issues: seq<Issue>)
    ensures issues == found + ManifestIssues(m.name, m.assumptions, today, soon)
  {
    issues := found;
    for j := 0 to |m.assumptions|
      invariant issues == found + ManifestIssues(m.name, m.assumptions[..j], today, soon)
    {
      var a := m.assumptions[j];
      assert m.assumptions[..j + 1][..j] == m.assumptions[..j];
      match Judge(a, today, soon) {
        case Some(f) => issues := issues + [Issue(m.name, a.id, f)];
        case None =>
      }
    }
    assert m.assumptions[..|m.assumptions|] == m.assumptions;
  }

  /** The report: all issues of all packages, in registry order; the status is `ok` without any. */
  method DoctorAssumptionExpirations(registry: seq<Manifest>, now: Seconds) returns (ok: bool, issues: seq<Issue>)
    ensures issues == AllIssues(registry, DateOf(now), DateOf(Later(now, 30)))
    ensures ok <==> issues == []
  {
    issues := [];
    var today := DateOf(now);
    var soon := DateOf(Later(now, 30));
    for i := 0 to |registry|
      invariant issues == AllIssues(registry[..i], today, soon)
    {
      issues := CheckManifest(registry[i], today, soon, issues);
      assert registry[..i + 1][..i] == registry[..i];
    }
    assert registry[..|registry|] == registry;
    ok := issues == [];
  }

  lemma {:induction false} ManifestIssuesMembers(name: string, s: seq<Assumption>, today: string, soon: string,
                                                 x: Issue)
    ensures x in ManifestIssues(name, s, today, soon) <==>
            x.package == name && exists a :: a in s && a.id == x.assumption && Judge(a, today, soon) == Some(x.finding)
  {
    if s != [] {
      var k := |s| - 1;
      ManifestIssuesMembers(name, s[..k], today, soon, x);
      assert s == s[..k] + [s[k]];
    }
  }

  /** The report lists exactly the assumptions with something wrong. */
  lemma {:induction false} ReportExact(ms: seq<Manifest>, today: string, soon: string, x: Issue)
    ensures x in AllIssues(ms, today, soon) <==>
            exists m, a :: m in ms && a in m.assumptions && m.name == x.package && a.id == x.assumption
                           && Judge(a, today, soon) == Some(x.finding)
  {
    if ms != [] {
      var k := |ms| - 1;
      ReportExact(ms[..k], today, soon, x);
      ManifestIssuesMembers(ms[k].name, ms[k].assumptions, today, soon, x);
      assert ms == ms[..k] + [ms[k]];
    }
  }

  /** The last day the texts can order: 9999-12-31. */
  lemma {:induction false} FourDigitYears(n: nat)
    ensures CivilFromDays(n).year <= 9999 <==> n <= 2_932_896
  {
    var last := Date(9999, 12, 31);
    LastOrdinal();
    EpochOrdinal();
    CivilInverts(last);
    CivilIsCalendar(n);
    CivilOrders(2_932_896, n);
  }

  lemma {:induction false} LastOrdinal()
    ensures Ordinal(Date(9999, 12, 31)) == 3_652_424
  {
    YearsClosedForm(9998);
    MonthTable(9999);
  }

  /** The last day whose year has four digits. */
  const LAST_DAY := Date(9999, 12, 31)

  /** An assumption whose expiry is looked at, and which ends on the real date `e`. */
  predicate EndsOn(a: Assumption, e: Date) {
    (a.state == Active || a.state == Approved) && ValidDate(e) && e.year <= 9999 && a.expires == Some(DateStr(e))
  }

  /** What the report promises about it, counted in days. */
  function DayVerdict(e: Date, now: Seconds): Option<Finding> {
    var today := Ordinal(EPOCH) + now / DAY;
    if Ordinal(e) <= today then Some(ExpiredOn(DateStr(e)))
    else if Ordinal(e) <= today + 30 then Some(ExpiresSoon(DateStr(e)))
    else None
  }

  /** The clock readings at which the texts say what the days say. */
  predicate TextsCompareDays(now: Seconds) {
    now / DAY + 30 <= 2_932_896 || StrLe("9999-12-31", DateOf(now))
  }

  /** At those readings the report compares days for every real expiry date: expired today or before,
      due within thirty days, or not reported. */
  lemma {:induction false} JudgeComparesDays(a: Assumption, e: Date, now: Seconds)
    requires EndsOn(a, e) && TextsCompareDays(now)
    ensures Judge(a, DateOf(now), DateOf(Later(now, 30))) == DayVerdict(e, now)
  {
    if now / DAY + 30 <= 2_932_896 {
      HorizonMoves(now);
      DayInColumns(now / DAY);
      DayInColumns(Later(now, 30) / DAY);
      JudgeOnDates(a, e, CivilFromDays(now / DAY), CivilFromDays(Later(now, 30) / DAY));
    } else {
      PastByText(e, now);
      DateIsIsoText(e);
      JudgeByText(a, DateStr(e), DateOf(now), DateOf(Later(now, 30)));
    }
  }

  lemma {:induction false} LastText()
    ensures DateStr(LAST_DAY) == "9999-12-31" && IsIsoDate("9999-12-31") && ValidDate(LAST_DAY)
  {
    ColumnPowers();
    PaddedIsFixed(9999, 4);
    assert Fixed(9999, 4) == Fixed(999, 3) + ['9'] && Fixed(999, 3) == Fixed(99, 2) + ['9'];
    assert Padded(9999, 4) == "9999";
    assert Padded(12, 2) == "12" && Padded(31, 2) == "31";
  }

  lemma {:induction false} LastOrdinalIs()
    ensures Ordinal(LAST_DAY) == Ordinal(EPOCH) + 2_932_896
  {
    LastOrdinal();
    EpochOrdinal();
  }

  /** A text of today that reaches 9999-12-31 reaches every real expiry date, and so does the day. */
  lemma {:induction false} PastByText(e: Date, now: Seconds)
    requires ValidDate(e) && e.year <= 9999 && StrLe("9999-12-31", DateOf(now))
    ensures StrLe(DateStr(e), DateOf(now)) && Ordinal(e) <= Ordinal(EPOCH) + now / DAY
  {
    LastText();
    LastOrdinalIs();
    TextOrderIsDateOrder(e, LAST_DAY);
    OrdinalOrders(LAST_DAY, e);
    StrLeTrans(DateStr(e), "9999-12-31", DateOf(now));
    if now / DAY <= 2_932_896 {
      DayInColumns(now / DAY);
      TextComparesDays(LAST_DAY, CivilFromDays(now / DAY));
    }
  }

  lemma {:induction false} DayInColumns(n: nat)
    requires n <= 2_932_896
    ensures var d := CivilFromDays(n); ValidDate(d) && d.year <= 9999 && Ordinal(d) == Ordinal(EPOCH) + n
  {
    FourDigitYears(n);
    CivilIsCalendar(n);
  }

  lemma {:induction false} JudgeOnDates(a: Assumption, e: Date, today: Date, soon: Date)
    requires a.state == Active || a.state == Approved
    requires ValidDate(e) && e.year <= 9999 && a.expires == Some(DateStr(e))
    requires ValidDate(today) && today.year <= 9999 && ValidDate(soon) && soon.year <= 9999
    ensures Judge(a, DateStr(today), DateStr(soon)) ==
            if Ordinal(e) <= Ordinal(today) then Some(ExpiredOn(DateStr(e)))
            else if Ordinal(e) <= Ordinal(soon) then Some(ExpiresSoon(DateStr(e)))
            else None
  {
    DateIsIsoText(e);
    TextComparesDays(e, today);
    TextComparesDays(e, soon);
    JudgeByText(a, DateStr(e), DateStr(today), DateStr(soon));
  }

  lemma {:induction false} JudgeByText(a: Assumption, e: string, today: string, soon: string)
    requires a.state == Active || a.state == Approved
    requires IsIsoDate(e) && a.expires == Some(e)
    ensures Judge(a, today, soon) ==
            if StrLe(e, today) then Some(ExpiredOn(e)) else if StrLe(e, soon) then Some(ExpiresSoon(e)) else None
  {
  }

  lemma {:induction false} TextComparesDays(a: Date, b: Date)
    requires ValidDate(a) && a.year <= 9999 && ValidDate(b) && b.year <= 9999
    ensures StrLe(DateStr(a), DateStr(b)) <==> Ordinal(a) <= Ordinal(b)
  {
    TextOrderIsDateOrder(a, b);
    OrdinalOrders(b, a);
  }

  lemma {:induction false} FiveDigitHead(d: Date)
    requires 10_000 <= d.year < 90_000
    ensures DateStr(d)[0] < '9'
  {
    var y := d.year;
    assert Dec(y)[0] == Dec(y / 10)[0];
    assert Dec(y / 10)[0] == Dec(y / 100)[0];
    assert Dec(y / 100)[0] == Dec(y / 1000)[0];
    assert Dec(y / 1000)[0] == Dec(y / 10_000)[0];
    ColumnPowers();
    DecLength(y, 4);
  }

  lemma {:induction false} YearTenThousand(n: nat)
    requires 2_932_896 < n <= 2_932_896 + 366
    ensures CivilFromDays(n).year == 10_000
  {
    FourDigitYears(n);
    CivilIsCalendar(n);
    EpochOrdinal();
    YearAfter();
    LaterYears(CivilFromDays(n), 10_000);
  }

  lemma {:induction false} YearAfter()
    ensures DaysBeforeYear(10_001) == 3_652_791
  {
    YearsClosedForm(10_000);
  }

  lemma {:induction false} LaterYears(d: Date, y: nat)
    ensures d.year > y ==> Ordinal(d) >= DaysBeforeYear(y + 1)
  {
    if d.year > y + 1 {
      YearsMonotone(y + 1, d.year);
    }
  }

  /** An assumption that ends on 9999-12-31 is passed over in silence from thirty days before the year
      10000, although it falls due, and then, although it has ended, up to the year 89999. */
  lemma {:induction false} FiveDigitYearsHideExpiry(a: Assumption, now: Seconds)
    requires (a.state == Active || a.state == Approved) && a.expires == Some("9999-12-31")
    requires (2_932_866 < now / DAY < 2_932_896)
             || (now / DAY > 2_932_896 && CivilFromDays(Later(now, 30) / DAY).year < 90_000)
    ensures Judge(a, DateOf(now), DateOf(Later(now, 30))) == None
    ensures EndsOn(a, LAST_DAY) && DayVerdict(LAST_DAY, now) != None
  {
    LastText();
    LastOrdinalIs();
    HorizonUnderNine(now);
    if now / DAY < 2_932_896 {
      DayInColumns(now / DAY);
      TextComparesDays(LAST_DAY, CivilFromDays(now / DAY));
    } else {
      TodayUnderNine(now);
    }
    JudgeByText(a, "9999-12-31", DateOf(now), DateOf(Later(now, 30)));
  }

  /** A text that starts below 9 does not reach the last day. */
  lemma {:induction false} HorizonUnderNine(now: Seconds)
    requires (2_932_866 < now / DAY < 2_932_896)
             || (now / DAY > 2_932_896 && CivilFromDays(Later(now, 30) / DAY).year < 90_000)
    ensures !StrLe("9999-12-31", DateOf(Later(now, 30)))
  {
    if now / DAY < 2_932_896 {
      HorizonMoves(now);
      YearTenThousand(Later(now, 30) / DAY);
    } else {
      HorizonNotBefore(now);
      FourDigitYears(Later(now, 30) / DAY);
    }
    FiveDigitHead(CivilFromDays(Later(now, 30) / DAY));
  }

  lemma {:induction false} TodayUnderNine(now: Seconds)
    requires now / DAY > 2_932_896 && CivilFromDays(Later(now, 30) / DAY).year < 90_000
    ensures !StrLe("9999-12-31", DateOf(now))
  {
    FourDigitYears(now / DAY);
    HorizonNotBefore(now);
    FiveDigitHead(CivilFromDays(now / DAY));
  }

  lemma {:induction false} HorizonMoves(now: Seconds)
    requires now / DAY <= 2_932_896
    ensures Later(now, 30) / DAY == now / DAY + 30
  {
  }

  /** The horizon is no earlier than today, in days and in years. */
  lemma {:induction false} HorizonNotBefore(now: Seconds)
    ensures now / DAY <= Later(now, 30) / DAY
    ensures CivilFromDays(now / DAY).year <= CivilFromDays(Later(now, 30) / DAY).year
  {
    CivilOrders(now / DAY, Later(now, 30) / DAY);
  }

  /** The condition is exact: the report agrees with the days for every assumption with a real expiry
      date if and only if the clock reading satisfies it. */
  lemma {:induction false} TextsCompareDaysIff(now: Seconds)
    ensures TextsCompareDays(now) <==>
              forall a, e :: EndsOn(a, e) ==> Judge(a, DateOf(now), DateOf(Later(now, 30))) == DayVerdict(e, now)
  {
    if TextsCompareDays(now) {
      forall a, e | EndsOn(a, e) ensures Judge(a, DateOf(now), DateOf(Later(now, 30))) == DayVerdict(e, now) {
        JudgeComparesDays(a, e, now);
      }
    } else {
      var a := Assumption("", Active, Some("9999-12-31"));
      LastDayMissed(a, now);
    }
  }

  lemma {:induction false} LastDayMissed(a: Assumption, now: Seconds)
    requires (a.state == Active || a.state == Approved) && a.expires == Some("9999-12-31") && !TextsCompareDays(now)
    ensures EndsOn(a, LAST_DAY) && Judge(a, DateOf(now), DateOf(Later(now, 30))) != DayVerdict(LAST_DAY, now)
  {
    LastText();
    LastOrdinalIs();
    if now / DAY == 2_932_896 {
      DayInColumns(now / DAY);
      TextComparesDays(LAST_DAY, CivilFromDays(now / DAY));
    } else if now / DAY < 2_932_896 {
      FiveDigitYearsHideExpiry(a, now);
    } else {
      JudgeByText(a, "9999-12-31", DateOf(now), DateOf(Later(now, 30)));
    }
  }
}
