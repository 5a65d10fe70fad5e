/**
 The clock of the candidate commands: days since 1970-01-01 to a proleptic
 Gregorian date, and the RFC 3339 text of a second count.
 */
module CivilDates {
  import opened Basics
  import opened Decimals

  datatype Date = Date(year: int, month: int, day: int)

  /** The straight-line computation: eras of 400 years, years that begin on 1 March. */
  function CivilFromDays(days: int): Date {
    var z := days + 719_468;
    var era := z / 146_097;
    var doe := z % 146_097;
    var yoe := YearOfEra(doe);
    var doy := doe - DaysBeforeYearOfEra(yoe);
    var mp := (5 * doy + 2) / 153;
    var day := doy - (153 * mp + 2) / 5 + 1;
    var month := if mp < 10 then mp + 3 else mp - 9;
    var year := yoe + era * 400 + if month <= 2 then 1 else 0;
    Date(year, month, day)
  }

  function YearOfEra(doe: int): int {
    (doe - doe / 1_460 + doe / 36_524 - doe / 146_096) / 365
  }

  function DaysBeforeYearOfEra(yoe: int): int {
    365 * yoe + yoe / 4 - yoe / 100
  }

  // ---------------------------------------------------------------------------
  // The calendar, independently of that computation.
  // ---------------------------------------------------------------------------

  predicate IsLeap(year: int) {
    year % 4 == 0 && (year % 100 != 0 || year % 400 == 0)
  }

  function DaysInMonth(year: int, month: int): int {
    if month == 2 then (if IsLeap(year) then 29 else 28)
    else if month == 4 || month == 6 || month == 9 || month == 11 then 30
    else 31
  }

  predicate ValidDate(d: Date) {
    1 <= d.month <= 12 && 1 <= d.day <= DaysInMonth(d.year, d.month)
  }

  function NextDay(d: Date): Date {
    if d.day < DaysInMonth(d.year, d.month) then Date(d.year, d.month, d.day + 1)
    else if d.month < 12 then Date(d.year, d.month + 1, 1)
    else Date(d.year + 1, 1, 1)
  }

  predicate Earlier(a: Date, b: Date) {
    a.year < b.year || (a.year == b.year && (a.month < b.month || (a.month == b.month && a.day < b.day)))
  }

  /** Days since 1970-01-01, the inverse of `CivilFromDays`: whole years since 1 March of year 0,
      whole months since 1 March, days since the first. */
  function DaysFromCivil(d: Date): int {
    var year := if d.month <= 2 then d.year - 1 else d.year;
    var mp := if d.month <= 2 then d.month + 9 else d.month - 3;
    365 * year + year / 4 - year / 100 + year / 400 + DaysBeforeMonth(mp) + d.day - 1 - 719_468
  }

  // ---------------------------------------------------------------------------
  // Years within an era. Year `y` of an era runs from 1 March of year `y` to the
  // end of February of year `y + 1`.
  // ---------------------------------------------------------------------------

  function YearLength(yoe: int): int {
    if IsLeap(yoe + 1) then 366 else 365
  }

  /** Centuries, four-year cycles and years of a day of the era. */
  lemma YearOfEraParts(doe: int, c: int, q: int, t: int)
    requires 0 <= doe < 146_096
    requires c == doe / 36_524 && q == doe % 36_524 / 1_461 && t == doe % 36_524 % 1_461
    ensures 0 <= c < 4 && 0 <= q < 25 && 0 <= t < 1_461 && (q == 24 ==> t < 1_460)
    ensures YearOfEra(doe) == 100 * c + 4 * q + (if t == 1_460 then 3 else t / 365)
  {
    assert doe == 36_524 * c + 1_461 * q + t;
    var e := (24 * c + q + t) / 1_460;
    assert doe / 1_460 == 25 * c + q + e;
    assert doe / 146_096 == 0;
    var k := if t == 1_460 then 3 else t / 365;
    assert doe - doe / 1_460 + c == 365 * (100 * c + 4 * q + k) + (t - e - 365 * k);
    assert 0 <= t - e - 365 * k < 365;
  }

  lemma YearStartParts(c: int, q: int, k: int)
    requires 0 <= c < 4 && 0 <= q < 25 && 0 <= k < 4
    ensures DaysBeforeYearOfEra(100 * c + 4 * q + k) == 36_524 * c + 1_461 * q + 365 * k
    ensures YearLength(100 * c + 4 * q + k) == if k == 3 && (q < 24 || c == 3) then 366 else 365
  {
    var y := 100 * c + 4 * q + k;
    assert y / 4 == 25 * c + q;
    assert y / 100 == c;
    assert (y + 1) % 4 == (k + 1) % 4;
    assert k == 3 ==> ((y + 1) % 100 == 0 <==> q == 24);
    assert k == 3 && q == 24 ==> y + 1 == 100 * (c + 1);
  }

  /** The computed year of the era is the one the day falls in. */
  lemma YearOfEraCorrect(doe: int)
    requires 0 <= doe < 146_097
    ensures var y := YearOfEra(doe);
            0 <= y < 400 && 0 <= doe - DaysBeforeYearOfEra(y) < YearLength(y)
  {
    if doe < 146_096 {
      var c, q, t := doe / 36_524, doe % 36_524 / 1_461, doe % 36_524 % 1_461;
      YearOfEraParts(doe, c, q, t);
      var k := if t == 1_460 then 3 else t / 365;
      assert doe == 36_524 * c + 1_461 * q + t;
      YearStartParts(c, q, k);
    }
  }

  lemma YearStartsGrow(y: int)
    requires 0 <= y < 400
    ensures DaysBeforeYearOfEra(y) + YearLength(y) == if y < 399 then DaysBeforeYearOfEra(y + 1) else 146_097
  {
    var c, q, k := y / 100, y % 100 / 4, y % 4;
    assert y == 100 * c + 4 * q + k;
    YearStartParts(c, q, k);
    if k < 3 {
      YearStartParts(c, q, k + 1);
    } else if q < 24 {
      YearStartParts(c, q + 1, 0);
    } else if c < 3 {
      YearStartParts(c + 1, 0, 0);
    }
  }

  lemma {:induction false} YearStartsMonotone(y: int, y': int)
    requires 0 <= y < y' < 400
    ensures DaysBeforeYearOfEra(y) + YearLength(y) <= DaysBeforeYearOfEra(y')
    decreases y' - y
  {
    YearStartsGrow(y);
    if y + 1 < y' {
      YearStartsMonotone(y + 1, y');
    }
  }

  /** A day lies in only one year of its era. */
  lemma YearUnique(doe: int, y: int, y': int)
    requires 0 <= y < 400 && 0 <= y' < 400
    requires 0 <= doe - DaysBeforeYearOfEra(y) < YearLength(y)
    requires 0 <= doe - DaysBeforeYearOfEra(y') < YearLength(y')
    ensures y == y'
  {
    if y < y' {
      YearStartsMonotone(y, y');
    } else if y' < y {
      YearStartsMonotone(y', y);
    }
  }

  // ---------------------------------------------------------------------------
  // Months within such a year, counted from March.
  // ---------------------------------------------------------------------------

  function DaysBeforeMonth(mp: int): int {
    (153 * mp + 2) / 5
  }

  function MonthOf(mp: int): int {
    if mp < 10 then mp + 3 else mp - 9
  }

  /** Month `mp` of a year that ends in February of `year` has the calendar's length. */
  lemma MonthLength(mp: int, year: int)
    requires 0 <= mp < 12
    ensures DaysBeforeMonth(mp) + DaysInMonth(year, MonthOf(mp))
         == if mp < 11 then DaysBeforeMonth(mp + 1) else if IsLeap(year) then 366 else 365
  {
  }

  lemma MonthCorrect(doy: int)
    requires 0 <= doy < 366
    ensures var mp := (5 * doy + 2) / 153;
            0 <= mp < 12 && DaysBeforeMonth(mp) <= doy && (mp < 11 ==> doy < DaysBeforeMonth(mp + 1))
  {
  }

  lemma MonthUnique(doy: int, mp: int)
    requires 0 <= mp < 12 && DaysBeforeMonth(mp) <= doy < 366 && (mp < 11 ==> doy < DaysBeforeMonth(mp + 1))
    ensures (5 * doy + 2) / 153 == mp
  {
  }

  // ---------------------------------------------------------------------------
  // The date of a day: era, year of the era, day of that year.
  // ---------------------------------------------------------------------------

  /** Day `doy` of year `yoe` of `era`. */
  function DateOf(era: int, yoe: int, doy: int): Date {
    var mp := (5 * doy + 2) / 153;
    var month := MonthOf(mp);
    Date(yoe + era * 400 + (if month <= 2 then 1 else 0), month, doy - DaysBeforeMonth(mp) + 1)
  }

  lemma LeapPeriod(year: int, era: int)
    ensures IsLeap(year + 400 * era) == IsLeap(year)
  {
    var shifted := year + 400 * era;
    assert shifted / 4 == year / 4 + 100 * era;
    assert shifted / 100 == year / 100 + 4 * era;
    assert shifted / 400 == year / 400 + era;
  }

  lemma DateOfValid(era: int, yoe: int, doy: int)
    requires 0 <= yoe < 400 && 0 <= doy < YearLength(yoe)
    ensures ValidDate(DateOf(era, yoe, doy))
  {
    var mp := (5 * doy + 2) / 153;
    MonthCorrect(doy);
    MonthLength(mp, yoe + era * 400 + 1);
    LeapPeriod(yoe + 1, era);
  }

  /** Where a day lies: its era, its year of that era and its day of that year. */
  datatype Position = Position(era: int, yoe: int, doy: int)

  predicate InRange(p: Position) {
    0 <= p.yoe < 400 && 0 <= p.doy < YearLength(p.yoe)
  }

  function PositionOf(days: int): Position {
    var z := days + 719_468;
    var yoe := YearOfEra(z % 146_097);
    Position(z / 146_097, yoe, z % 146_097 - DaysBeforeYearOfEra(yoe))
  }

  function DaysAt(p: Position): int {
    146_097 * p.era + DaysBeforeYearOfEra(p.yoe) + p.doy - 719_468
  }

  lemma PositionCorrect(days: int)
    ensures InRange(PositionOf(days)) && DaysAt(PositionOf(days)) == days
  {
    YearOfEraCorrect((days + 719_468) % 146_097);
  }

  lemma CivilIsDateOf(days: int)
    ensures var p := PositionOf(days); CivilFromDays(days) == DateOf(p.era, p.yoe, p.doy)
  {
  }

  lemma EndsWithinEra(yoe: int)
    requires 0 <= yoe < 400
    ensures 0 <= DaysBeforeYearOfEra(yoe) && DaysBeforeYearOfEra(yoe) + YearLength(yoe) <= 146_097
  {
    if yoe < 399 {
      YearStartsMonotone(yoe, 399);
    }
    if yoe > 0 {
      YearStartsMonotone(0, yoe);
    }
    YearStartsGrow(399);
  }

  lemma SplitEra(z: int, era: int, doe: int)
    requires z == 146_097 * era + doe && 0 <= doe < 146_097
    ensures z / 146_097 == era && z % 146_097 == doe
  {
  }

  lemma PositionUnique(p: Position)
    requires InRange(p)
    ensures PositionOf(DaysAt(p)) == p
  {
    var doe := DaysBeforeYearOfEra(p.yoe) + p.doy;
    EndsWithinEra(p.yoe);
    SplitEra(DaysAt(p) + 719_468, p.era, doe);
    YearOfEraCorrect(doe);
    YearUnique(doe, YearOfEra(doe), p.yoe);
  }

  function NextPosition(p: Position): Position {
    if p.doy + 1 < YearLength(p.yoe) then Position(p.era, p.yoe, p.doy + 1)
    else if p.yoe < 399 then Position(p.era, p.yoe + 1, 0)
    else Position(p.era + 1, 0, 0)
  }

  lemma PositionAdvances(days: int)
    ensures PositionOf(days + 1) == NextPosition(PositionOf(days))
  {
    PositionCorrect(days);
    NextPositionIsNext(PositionOf(days));
    PositionUnique(NextPosition(PositionOf(days)));
  }

  lemma NextPositionIsNext(p: Position)
    requires InRange(p)
    ensures InRange(NextPosition(p)) && DaysAt(NextPosition(p)) == DaysAt(p) + 1
  {
    YearStartsGrow(p.yoe);
  }

  /** Every day count gives a date of the proleptic Gregorian calendar. */
  lemma CivilValid(days: int)
    ensures ValidDate(CivilFromDays(days))
  {
    var p := PositionOf(days);
    PositionCorrect(days);
    CivilIsDateOf(days);
    DateOfValid(p.era, p.yoe, p.doy);
  }

  lemma NextDate(p: Position)
    requires InRange(p)
    ensures var q := NextPosition(p); DateOf(q.era, q.yoe, q.doy) == NextDay(DateOf(p.era, p.yoe, p.doy))
  {
    if p.doy + 1 < YearLength(p.yoe) {
      NextWithinYear(p.era, p.yoe, p.doy);
    } else {
      NextAcrossYears(p.era, p.yoe, NextPosition(p).era, NextPosition(p).yoe);
    }
  }

  lemma NextWithinYear(era: int, yoe: int, doy: int)
    requires 0 <= yoe < 400 && 0 <= doy && doy + 1 < YearLength(yoe)
    ensures DateOf(era, yoe, doy + 1) == NextDay(DateOf(era, yoe, doy))
  {
    var mp := (5 * doy + 2) / 153;
    MonthCorrect(doy);
    MonthLength(mp, yoe + era * 400 + if MonthOf(mp) <= 2 then 1 else 0);
    LeapPeriod(yoe + 1, era);
    if mp < 11 && doy + 1 == DaysBeforeMonth(mp + 1) {
      MonthUnique(doy + 1, mp + 1);
    } else {
      MonthUnique(doy + 1, mp);
    }
  }

  lemma NextAcrossYears(era: int, yoe: int, era': int, yoe': int)
    requires 0 <= yoe < 400 && era' * 400 + yoe' == era * 400 + yoe + 1
    ensures DateOf(era', yoe', 0) == NextDay(DateOf(era, yoe, YearLength(yoe) - 1))
  {
    LeapPeriod(yoe + 1, era);
    MonthUnique(YearLength(yoe) - 1, 11);
  }

  lemma Epoch()
    ensures CivilFromDays(0) == Date(1970, 1, 1)
  {
    EpochYear();
    assert 719_468 / 146_097 == 4 && 719_468 % 146_097 == 135_080;
  }

  lemma EpochYear()
    ensures YearOfEra(135_080) == 369 && DaysBeforeYearOfEra(369) == 134_774
  {
    assert 135_080 / 1_460 == 92 && 135_080 / 36_524 == 3 && 135_080 / 146_096 == 0;
  }

  /** Each day is followed by the next one of the calendar; with `Epoch` this leaves no other function. */
  lemma CivilAdvances(days: int)
    ensures CivilFromDays(days + 1) == NextDay(CivilFromDays(days))
  {
    PositionCorrect(days);
    CivilIsDateOf(days);
    CivilIsDateOf(days + 1);
    PositionAdvances(days);
    NextDate(PositionOf(days));
  }

  /** Days before 1 March of year `yoe` of `era`, counted by the leap rule. */
  lemma EraYears(era: int, yoe: int)
    requires 0 <= yoe < 400
    ensures var year := era * 400 + yoe;
            365 * year + year / 4 - year / 100 + year / 400 == 146_097 * era + DaysBeforeYearOfEra(yoe)
  {
    var year := era * 400 + yoe;
    assert year / 4 == 100 * era + yoe / 4;
    assert year / 100 == 4 * era + yoe / 100;
    assert year / 400 == era;
  }

  lemma CountDate(p: Position)
    requires InRange(p)
    ensures DaysFromCivil(DateOf(p.era, p.yoe, p.doy)) == DaysAt(p)
  {
    MonthCorrect(p.doy);
    EraYears(p.era, p.yoe);
  }

  /** The computation and the count by the leap rule are inverse to each other. */
  lemma CivilInverse(days: int)
    ensures DaysFromCivil(CivilFromDays(days)) == days
  {
    PositionCorrect(days);
    CivilIsDateOf(days);
    CountDate(PositionOf(days));
  }

  /** Every valid date lies somewhere. */
  lemma Locate(d: Date) returns (p: Position)
    requires ValidDate(d)
    ensures InRange(p) && DateOf(p.era, p.yoe, p.doy) == d
  {
    var year := if d.month <= 2 then d.year - 1 else d.year;
    var mp := if d.month <= 2 then d.month + 9 else d.month - 3;
    p := Position(year / 400, year % 400, DaysBeforeMonth(mp) + d.day - 1);
    LeapPeriod(p.yoe + 1, p.era);
    MonthLength(mp, d.year);
    MonthsFit(mp);
    MonthUnique(p.doy, mp);
  }

  lemma MonthsFit(mp: int)
    requires 0 <= mp < 12
    ensures mp < 11 ==> 0 <= DaysBeforeMonth(mp) <= DaysBeforeMonth(mp + 1) <= 337
    ensures DaysBeforeMonth(11) == 337
  {
  }

  lemma CivilInverseOnDates(d: Date)
    requires ValidDate(d)
    ensures CivilFromDays(DaysFromCivil(d)) == d
  {
    var p := Locate(d);
    CountDate(p);
    PositionUnique(p);
    CivilIsDateOf(DaysAt(p));
  }

  lemma NextIsLater(d: Date, e: Date)
    requires ValidDate(d) && (e == NextDay(d) || Earlier(NextDay(d), e))
    ensures Earlier(d, e)
  {
  }

  lemma {:induction false} CivilClimbs(days: int, later: int)
    requires days < later
    ensures Earlier(CivilFromDays(days), CivilFromDays(later))
    decreases later - days
  {
    CivilValid(days);
    CivilAdvances(days);
    if days + 1 < later {
      CivilClimbs(days + 1, later);
    }
    NextIsLater(CivilFromDays(days), CivilFromDays(later));
  }

  /** Later days have later dates, and only later days do. */
  lemma CivilMonotone(days: int, later: int)
    ensures days < later <==> Earlier(CivilFromDays(days), CivilFromDays(later))
  {
    if days < later {
      CivilClimbs(days, later);
    } else if later < days {
      CivilClimbs(later, days);
    }
  }

  // ---------------------------------------------------------------------------
  // The timestamp text (section 5.6 of RFC 3339).
  // ---------------------------------------------------------------------------

  function Zeros(n: nat): string {
    if n == 0 then "" else "0" + Zeros(n - 1)
  }

  /** `{n:0width}`: zeros on the left up to `width`, and no fewer digits than `n` needs. */
  function Padded(n: nat, width: nat): string {
    var digits := Decimal(n);
    if |digits| < width then Zeros(width - |digits|) + digits else digits
  }

  function DateText(d: Date): string
    requires ValidDate(d) && d.year >= 0
  {
    Padded(d.year, 4) + "-" + Padded(d.month, 2) + "-" + Padded(d.day, 2)
  }

  function TimeText(time: nat): string {
    Padded(time / 3_600, 2) + ":" + Padded(time % 3_600 / 60, 2) + ":" + Padded(time % 60, 2)
  }

  /** `YYYY-MM-DDTHH:MM:SSZ` for a count of seconds since the epoch. */
  function Rfc3339(seconds: nat): string
    requires CivilFromDays(seconds / 86_400).year >= 0
  {
    CivilValid(seconds / 86_400);
    StampText(CivilFromDays(seconds / 86_400), seconds % 86_400)
  }

  function StampText(d: Date, time: nat): string
    requires ValidDate(d) && d.year >= 0
  {
    Joined(DateText(d), TimeText(time))
  }

  function Joined(date: string, time: string): string {
    date + "T" + time + "Z"
  }

  /** Readers of the fixed-width forms, by position. */
  function ParseDate(text: string): Option<int> {
    if |text| != 10 || text[4] != '-' || text[7] != '-' then None
    else match (Number(text[0..4]), Number(text[5..7]), Number(text[8..10]))
      case (Some(year), Some(month), Some(day)) =>
        if ValidDate(Date(year, month, day)) then Some(DaysFromCivil(Date(year, month, day))) else None
      case _ => None
  }

  function ParseTime(text: string): Option<nat> {
    if |text| != 8 || text[2] != ':' || text[5] != ':' then None
    else match (Number(text[0..2]), Number(text[3..5]), Number(text[6..8]))
      case (Some(hour), Some(minute), Some(second)) =>
        if hour < 24 && minute < 60 && second < 60 then Some(3_600 * hour + 60 * minute + second) else None
      case _ => None
  }

  function ParseRfc3339(text: string): Option<int> {
    if |text| != 20 || text[10] != 'T' || text[19] != 'Z' then None
    else match (ParseDate(text[..10]), ParseTime(text[11..19]))
      case (Some(days), Some(time)) => Some(86_400 * days + time)
      case _ => None
  }

  lemma {:induction false} LeadingZeros(zeros: nat, text: string)
    requires Number(text).Some?
    ensures Number(Zeros(zeros) + text) == Number(text) && |Zeros(zeros)| == zeros
    decreases zeros, text
  {
    var all := Zeros(zeros) + text;
    if text == [] {
      if zeros > 0 {
        LeadingZeros(zeros - 1, []);
        ZerosSnoc(zeros - 1);
        assert all[..|all| - 1] == Zeros(zeros - 1) + [];
      }
    } else {
      LeadingZeros(zeros, text[..|text| - 1]);
      assert all[..|all| - 1] == Zeros(zeros) + text[..|text| - 1];
    }
  }

  lemma {:induction false} ZerosSnoc(n: nat)
    ensures Zeros(n + 1) == Zeros(n) + "0"
  {
    if n > 0 {
      ZerosSnoc(n - 1);
    }
  }

  lemma {:induction false} DecimalWidth(n: nat, width: nat, bound: nat)
    requires (width == 1 && bound == 10) || (width == 2 && bound == 100) || (width == 3 && bound == 1_000)
        || (width == 4 && bound == 10_000)
    requires n < bound
    ensures |Decimal(n)| <= width
  {
    if n >= 10 {
      DecimalWidth(n / 10, width - 1, bound / 10);
    }
  }

  lemma PaddedValue(n: nat, width: nat, bound: nat)
    requires (width == 2 && bound == 100) || (width == 4 && bound == 10_000)
    requires n < bound
    ensures |Padded(n, width)| == width && Number(Padded(n, width)) == Some(n)
  {
    DecimalValue(n);
    DecimalWidth(n, width, bound);
    LeadingZeros(width - |Decimal(n)|, Decimal(n));
    assert Zeros(0) + Decimal(n) == Decimal(n);
  }

  lemma DateTextReads(d: Date)
    requires ValidDate(d) && 0 <= d.year < 10_000
    ensures |DateText(d)| == 10 && ParseDate(DateText(d)) == Some(DaysFromCivil(d))
  {
    PaddedValue(d.year, 4, 10_000);
    PaddedValue(d.month, 2, 100);
    PaddedValue(d.day, 2, 100);
    ThreeFields(Padded(d.year, 4), '-', Padded(d.month, 2), Padded(d.day, 2));
  }

  lemma ClockParts(time: nat)
    requires time < 86_400
    ensures 0 <= time / 3_600 < 24 && 0 <= time % 3_600 / 60 < 60 && 0 <= time % 60 < 60
    ensures time == 3_600 * (time / 3_600) + 60 * (time % 3_600 / 60) + time % 60
  {
  }

  lemma ClockReads(hour: nat, minute: nat, second: nat)
    requires hour < 24 && minute < 60 && second < 60
    ensures var text := Padded(hour, 2) + [':'] + Padded(minute, 2) + [':'] + Padded(second, 2);
            |text| == 8 && ParseTime(text) == Some(3_600 * hour + 60 * minute + second)
  {
    PaddedValue(hour, 2, 100);
    PaddedValue(minute, 2, 100);
    PaddedValue(second, 2, 100);
    ThreeFields(Padded(hour, 2), ':', Padded(minute, 2), Padded(second, 2));
  }

  lemma TimeTextReads(time: nat)
    requires time < 86_400
    ensures |TimeText(time)| == 8 && ParseTime(TimeText(time)) == Some(time)
  {
    ClockParts(time);
    ClockReads(time / 3_600, time % 3_600 / 60, time % 60);
  }

  lemma ThreeFields(a: string, separator: char, b: string, c: string)
    requires |b| == |c| == 2
    ensures var t := a + [separator] + b + [separator] + c;
            && |t| == |a| + 6 && t[|a|] == t[|a| + 3] == separator
            && t[0..|a|] == a && t[|a| + 1..|a| + 3] == b && t[|a| + 4..|a| + 6] == c
  {
  }

  lemma Stamped(date: string, time: string, days: int, second: nat, seconds: int)
    requires 86_400 * days + second == seconds
    requires |date| == 10 && |time| == 8 && ParseDate(date) == Some(days) && ParseTime(time) == Some(second)
    ensures ParseRfc3339(Joined(date, time)) == Some(seconds)
  {
    var text := Joined(date, time);
    assert text[..10] == date && text[11..19] == time;
  }

  lemma DayAndTime(seconds: nat)
    ensures 86_400 * (seconds / 86_400) + seconds % 86_400 == seconds
  {
  }

  /** The two halves of a printed timestamp, and what each reads back as. */
  lemma TimestampParts(seconds: nat) returns (date: string, clock: string)
    requires 0 <= CivilFromDays(seconds / 86_400).year < 10_000
    ensures Rfc3339(seconds) == Joined(date, clock)
    ensures |date| == 10 && ParseDate(date) == Some(seconds / 86_400)
    ensures |clock| == 8 && ParseTime(clock) == Some(seconds % 86_400)
  {
    var d := CivilFromDays(seconds / 86_400);
    CivilValid(seconds / 86_400);
    CivilInverse(seconds / 86_400);
    date, clock := DateText(d), TimeText(seconds % 86_400);
    DateTextReads(d);
    TimeTextReads(seconds % 86_400);
  }

  /** Until the year 10000 the printed timestamp reads back as the very second it was printed for. */
  lemma TimestampRoundTrip(seconds: nat)
    requires 0 <= CivilFromDays(seconds / 86_400).year < 10_000
    ensures ParseRfc3339(Rfc3339(seconds)) == Some(seconds)
    ensures var text := Rfc3339(seconds);
            && |text| == 20 && text[4] == '-' && text[7] == '-' && text[10] == 'T'
            && text[13] == ':' && text[16] == ':' && text[19] == 'Z'
  {
    var date, clock := TimestampParts(seconds);
    DayAndTime(seconds);
    Stamped(date, clock, seconds / 86_400, seconds % 86_400, seconds);
  }
}
