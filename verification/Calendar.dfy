/** The calendar arithmetic of console-tui/src/localtime.rs, and the Gregorian calendar it computes. */
module Calendar {

  datatype Date = Date(y: int, m: int, d: int)

  // ----- the Gregorian calendar

  predicate IsLeap(y: int) {
    y % 4 == 0 && (y % 100 != 0 || y % 400 == 0)
  }

  function MonthLength(y: int, m: int): int {
    if m == 2 then (if IsLeap(y) then 29 else 28)
    else if m == 4 || m == 6 || m == 9 || m == 11 then 30
    else 31
  }

  predicate Valid(c: Date) {
    1 <= c.m <= 12 && 1 <= c.d <= MonthLength(c.y, c.m)
  }

  function Tomorrow(c: Date): Date {
    if c.d < MonthLength(c.y, c.m) then Date(c.y, c.m, c.d + 1)
    else if c.m < 12 then Date(c.y, c.m + 1, 1)
    else Date(c.y + 1, 1, 1)
  }

  const EPOCH := Date(1970, 1, 1)

  // ----- the code

  function DaysFromCivil(y: int, m: int, d: int): int
  {
    var y' := if m <= 2 then y - 1 else y;
    var era := y' / 400;
    var yoe := y' - era * 400;
    var mp := (m + 9) % 12;
    var doy := (153 * mp + 2) / 5 + d - 1;
    var doe := yoe * 365 + yoe / 4 - yoe / 100 + doy;
    era * 146097 + doe - 719468
  }

  function CivilFromDays(z: int): Date {
    var z' := z + 719468;
    var era := z' / 146097;
    var doe := z' - era * 146097;
    var yoe := YearOfEra(doe);
    CivilOf(era, yoe, doe - (365 * yoe + yoe / 4 - yoe / 100))
  }

  /** The month and day of a day of a March-based year. */
  function CivilOf(era: int, yoe: int, doy: int): Date {
    var mp := (5 * doy + 2) / 153;
    var d := doy - (153 * mp + 2) / 5 + 1;
    var m := if mp < 10 then mp + 3 else mp - 9;
    Date(yoe + era * 400 + (if m <= 2 then 1 else 0), m, d)
  }

  function YearOfEra(doe: int): int {
    (doe - doe / 1460 + doe / 36524 - doe / 146096) / 365
  }

  function Days(c: Date): int {
    DaysFromCivil(c.y, c.m, c.d)
  }

  // ----- years that start in March, inside an era of 400

  /** Days before the March-based year within its era. */
  function YearStart(yoe: int): int {
    365 * yoe + yoe / 4 - yoe / 100
  }

  /** A March-based year is long when the February that ends it is. */
  function YearLength(yoe: int): int {
    if IsLeap(yoe + 1) then 366 else 365
  }

  /** A year of the era by century, olympiad and year: where it starts, and whether it is long. */
  lemma YearParts(c: int, q: int, s: int)
    requires 0 <= c < 4 && 0 <= q < 25 && 0 <= s < 4
    ensures YearStart(100 * c + 4 * q + s) == 36524 * c + 1461 * q + 365 * s
    ensures YearLength(100 * c + 4 * q + s) == if s == 3 && (q < 24 || c == 3) then 366 else 365
  {
    var yoe := 100 * c + 4 * q + s;
    assert yoe / 4 == 25 * c + q && yoe / 100 == c;
    assert (yoe + 1) % 4 == (s + 1) % 4;
    assert (yoe + 1) % 100 == (4 * q + s + 1) % 100;
  }

  lemma SplitYear(yoe: int) returns (c: int, q: int, s: int)
    requires 0 <= yoe < 400
    ensures 0 <= c < 4 && 0 <= q < 25 && 0 <= s < 4 && yoe == 100 * c + 4 * q + s
  {
    c, q, s := yoe / 100, yoe % 100 / 4, yoe % 4;
  }

  lemma YearStartsAdd(yoe: int)
    requires 0 <= yoe < 399
    ensures YearStart(yoe + 1) == YearStart(yoe) + YearLength(yoe)
  {
    hide *;
    var c, q, s := SplitYear(yoe);
    YearParts(c, q, s);
    if s < 3 {
      YearParts(c, q, s + 1);
    } else if q < 24 {
      YearParts(c, q + 1, 0);
    } else {
      YearParts(c + 1, 0, 0);
    }
  }

  /** Dividing by 1460 counts one more on the last days of an olympiad. */
  lemma Fours(k: int, long: int)
    requires 0 <= long < 2920
    ensures (1460 * k + long) / 1460 == k + (if long >= 1460 then 1 else 0)
  {
  }

  lemma Centuries(c: int, rest: int)
    requires 0 <= c < 4 && 0 <= rest <= (if c == 3 then 36524 else 36523)
    ensures (36524 * c + rest) / 36524 - (36524 * c + rest) / 146096 == c
  {
  }

  lemma WholeYears(y: int, rest: int)
    requires 0 <= rest < 365
    ensures (365 * y + rest) / 365 == y
  {
  }

  lemma YearOfEraBy(doe: int, fours: int, centuries: int, y: int, rest: int)
    requires doe / 1460 == fours && doe / 36524 - doe / 146096 == centuries
    requires doe - fours + centuries == 365 * y + rest && 0 <= rest < 365
    ensures YearOfEra(doe) == y
  {
    WholeYears(y, rest);
  }

  lemma YearOfParts(c: int, q: int, s: int, doy: int)
    requires 0 <= c < 4 && 0 <= q < 25 && 0 <= s < 4
    requires 0 <= doy < if s == 3 && (q < 24 || c == 3) then 366 else 365
    ensures YearOfEra(36524 * c + 1461 * q + 365 * s + doy) == 100 * c + 4 * q + s
  {
    hide *;
    var doe := 36524 * c + 1461 * q + 365 * s + doy;
    var long := 24 * c + q + 365 * s + doy;
    var extra := if long >= 1460 then 1 else 0;
    assert doe == 1460 * (25 * c + q) + long;
    Fours(25 * c + q, long);
    Centuries(c, 1461 * q + 365 * s + doy);
    YearOfEraBy(doe, 25 * c + q + extra, c, 100 * c + 4 * q + s, doy - extra);
  }

  lemma YearOfEraIs(yoe: int, doy: int)
    requires 0 <= yoe < 400 && 0 <= doy < YearLength(yoe)
    ensures YearOfEra(YearStart(yoe) + doy) == yoe
  {
    hide *;
    var c, q, s := SplitYear(yoe);
    YearParts(c, q, s);
    YearOfParts(c, q, s, doy);
  }

  /** Every day of an era lies in one of its years, and the formula finds that year. */
  lemma YearOfEraInRange(doe: int)
    requires 0 <= doe < 146097
    ensures var yoe := YearOfEra(doe);
            0 <= yoe < 400 && 0 <= doe - YearStart(yoe) < YearLength(yoe)
  {
    var c := if doe == 146096 then 3 else doe / 36524;
    var inCentury := doe - 36524 * c;
    var q := inCentury / 1461;
    var inOlympiad := inCentury - 1461 * q;
    var s := if inOlympiad == 1460 then 3 else inOlympiad / 365;
    var doy := inOlympiad - 365 * s;
    YearParts(c, q, s);
    YearOfParts(c, q, s, doy);
  }

  // ----- months of a March-based year

  function MonthStart(mp: int): int {
    (153 * mp + 2) / 5
  }

  lemma MonthOfDay(mp: int, d: int)
    requires 0 <= mp < 12 && 1 <= d <= (if mp == 11 then 29 else MonthStart(mp + 1) - MonthStart(mp))
    ensures (5 * (MonthStart(mp) + d - 1) + 2) / 153 == mp
  {
  }

  lemma DayInMonth(doy: int)
    requires 0 <= doy < 366
    ensures var mp := (5 * doy + 2) / 153;
            0 <= mp < 12 && MonthStart(mp) <= doy && (mp < 11 ==> doy < MonthStart(mp + 1))
  {
  }

  // ----- dates and day numbers

  /** The date of a day of a month of a March-based year. */
  function MarchDate(era: int, yoe: int, mp: int, d: int): Date {
    Date(era * 400 + yoe + (if mp >= 10 then 1 else 0), if mp < 10 then mp + 3 else mp - 9, d)
  }

  function DayNumber(era: int, yoe: int, doy: int): int {
    era * 146097 + YearStart(yoe) + doy - 719468
  }

  lemma AsMarchDate(c: Date) returns (era: int, yoe: int, mp: int)
    requires 1 <= c.m <= 12
    ensures 0 <= yoe < 400 && 0 <= mp < 12 && c == MarchDate(era, yoe, mp, c.d)
  {
    mp := (c.m + 9) % 12;
    var y := if c.m <= 2 then c.y - 1 else c.y;
    era := y / 400;
    yoe := y % 400;
  }

  lemma DaysOfMarchDate(era: int, yoe: int, mp: int, d: int)
    requires 0 <= yoe < 400 && 0 <= mp < 12
    ensures Days(MarchDate(era, yoe, mp, d)) == DayNumber(era, yoe, MonthStart(mp) + d - 1)
  {
    var c := MarchDate(era, yoe, mp, d);
    assert (c.m + 9) % 12 == mp;
    assert (era * 400 + yoe) / 400 == era;
  }

  lemma Mod4(x: int, k: int)
    ensures (x + 4 * k) % 4 == x % 4
  {
  }

  lemma Mod100(x: int, k: int)
    ensures (x + 100 * k) % 100 == x % 100
  {
  }

  lemma Mod400(x: int, k: int)
    ensures (x + 400 * k) % 400 == x % 400
  {
  }

  lemma LeapOfEra(era: int, yoe: int)
    ensures IsLeap(era * 400 + yoe + 1) == IsLeap(yoe + 1)
  {
    Mod4(yoe + 1, 100 * era);
    Mod100(yoe + 1, 4 * era);
    Mod400(yoe + 1, era);
  }

  /** Days of a month of a March-based year: the formula's gap, and for February what is left of the year. */
  function MarchLength(yoe: int, mp: int): int {
    if mp == 11 then YearLength(yoe) - MonthStart(11) else MonthStart(mp + 1) - MonthStart(mp)
  }

  lemma MarchLengthIs(era: int, yoe: int, mp: int, d: int)
    requires 0 <= mp < 12
    ensures var c := MarchDate(era, yoe, mp, d); MonthLength(c.y, c.m) == MarchLength(yoe, mp)
  {
    LeapOfEra(era, yoe);
  }

  lemma TomorrowInMarch(era: int, yoe: int, mp: int, d: int)
    requires 0 <= yoe < 400 && 0 <= mp < 12 && 1 <= d <= MarchLength(yoe, mp)
    ensures Tomorrow(MarchDate(era, yoe, mp, d)) ==
            if d < MarchLength(yoe, mp) then MarchDate(era, yoe, mp, d + 1)
            else if mp < 11 then MarchDate(era, yoe, mp + 1, 1)
            else if yoe < 399 then MarchDate(era, yoe + 1, 0, 1)
            else MarchDate(era + 1, 0, 0, 1)
  {
    MarchLengthIs(era, yoe, mp, d);
  }

  lemma EraOf(era: int, doe: int)
    requires 0 <= doe < 146097
    ensures (era * 146097 + doe) / 146097 == era
  {
  }

  lemma YearEnds(yoe: int, doy: int)
    requires 0 <= yoe < 400 && 0 <= doy < YearLength(yoe)
    ensures 0 <= YearStart(yoe) + doy < 146097
  {
  }

  lemma CivilOfParts(era: int, doe: int, yoe: int, z: int)
    requires z + 719468 == era * 146097 + doe && (z + 719468) / 146097 == era && YearOfEra(doe) == yoe
    ensures CivilFromDays(z) == CivilOf(era, yoe, doe - YearStart(yoe))
  {
    hide YearOfEra, CivilOf;
  }

  lemma CivilOfDayNumber(era: int, yoe: int, doy: int)
    requires 0 <= yoe < 400 && 0 <= doy < YearLength(yoe)
    ensures CivilFromDays(DayNumber(era, yoe, doy)) == CivilOf(era, yoe, doy)
  {
    hide YearStart, YearLength, YearOfEra, CivilOf, CivilFromDays;
    YearEnds(yoe, doy);
    var doe := YearStart(yoe) + doy;
    EraOf(era, doe);
    YearOfEraIs(yoe, doy);
    CivilOfParts(era, doe, yoe, DayNumber(era, yoe, doy));
  }

  lemma SplitDays(z: int) returns (era: int, yoe: int, doy: int)
    ensures 0 <= yoe < 400 && 0 <= doy < YearLength(yoe) && z == DayNumber(era, yoe, doy)
  {
    era := (z + 719468) / 146097;
    var doe := z + 719468 - era * 146097;
    YearOfEraInRange(doe);
    yoe := YearOfEra(doe);
    doy := doe - YearStart(yoe);
  }

  lemma CivilOfMonthDay(era: int, yoe: int, mp: int, d: int)
    requires 0 <= mp < 12 && 1 <= d <= MarchLength(yoe, mp)
    ensures CivilOf(era, yoe, MonthStart(mp) + d - 1) == MarchDate(era, yoe, mp, d)
    ensures 0 <= MonthStart(mp) + d - 1 < YearLength(yoe)
  {
    MonthOfDay(mp, d);
  }

  /** Every valid date is recovered from its day number. */
  lemma CivilOfDays(c: Date)
    requires Valid(c)
    ensures CivilFromDays(Days(c)) == c
  {
    var era, yoe, mp := AsMarchDate(c);
    MarchLengthIs(era, yoe, mp, c.d);
    DaysOfMarchDate(era, yoe, mp, c.d);
    CivilOfMarchDay(era, yoe, mp, c.d, Days(c));
  }

  lemma CivilOfMarchDay(era: int, yoe: int, mp: int, d: int, z: int)
    requires 0 <= yoe < 400 && 0 <= mp < 12 && 1 <= d <= MarchLength(yoe, mp)
    requires z == DayNumber(era, yoe, MonthStart(mp) + d - 1)
    ensures CivilFromDays(z) == MarchDate(era, yoe, mp, d)
  {
    hide *;
    CivilOfMonthDay(era, yoe, mp, d);
    CivilOfDayNumber(era, yoe, MonthStart(mp) + d - 1);
  }

  /** Every day of a March-based year is a day of one of its months. */
  lemma MonthDayOf(yoe: int, doy: int) returns (mp: int, d: int)
    requires 0 <= doy < YearLength(yoe)
    ensures 0 <= mp < 12 && 1 <= d <= MarchLength(yoe, mp) && doy == MonthStart(mp) + d - 1
  {
    DayInMonth(doy);
    mp := (5 * doy + 2) / 153;
    d := doy - MonthStart(mp) + 1;
  }

  lemma MarchDateIsValid(era: int, yoe: int, mp: int, d: int)
    requires 0 <= mp < 12 && 1 <= d <= MarchLength(yoe, mp)
    ensures Valid(MarchDate(era, yoe, mp, d))
  {
    hide IsLeap, MonthLength, MarchLength;
    MarchLengthIs(era, yoe, mp, d);
  }

  /** Every day number names a valid date, and is recovered from it. */
  lemma DaysOfCivil(z: int)
    ensures Valid(CivilFromDays(z)) && Days(CivilFromDays(z)) == z
  {
    hide *;
    var era, yoe, doy := SplitDays(z);
    var mp, d := MonthDayOf(yoe, doy);
    CivilOfDayNumber(era, yoe, doy);
    CivilOfMonthDay(era, yoe, mp, d);
    MarchDateIsValid(era, yoe, mp, d);
    DaysOfMarchDate(era, yoe, mp, d);
  }

  lemma NextDayNumber(era: int, yoe: int, mp: int)
    requires 0 <= yoe < 400 && 0 <= mp < 12
    ensures DayNumber(era, yoe, MonthStart(mp) + MarchLength(yoe, mp)) ==
            if mp < 11 then DayNumber(era, yoe, MonthStart(mp + 1))
            else if yoe < 399 then DayNumber(era, yoe + 1, 0)
            else DayNumber(era + 1, 0, 0)
  {
    if yoe < 399 {
      YearStartsAdd(yoe);
    }
  }

  lemma DayNumberSteps(era: int, yoe: int, doy: int)
    ensures DayNumber(era, yoe, doy + 1) == DayNumber(era, yoe, doy) + 1
  {
  }

  lemma MonthsAreNotEmpty(yoe: int, mp: int)
    requires 0 <= mp < 12
    ensures MarchLength(yoe, mp) >= 1 && MonthStart(0) == 0
  {
  }

  lemma DaysOfMarchTomorrow(era: int, yoe: int, mp: int, d: int)
    requires 0 <= yoe < 400 && 0 <= mp < 12 && 1 <= d <= MarchLength(yoe, mp)
    ensures var t := Tomorrow(MarchDate(era, yoe, mp, d));
            Valid(t) && Days(t) == Days(MarchDate(era, yoe, mp, d)) + 1
  {
    hide *;
    DaysOfMarchDate(era, yoe, mp, d);
    TomorrowInMarch(era, yoe, mp, d);
    NextDayNumber(era, yoe, mp);
    DayNumberSteps(era, yoe, MonthStart(mp) + d - 1);
    if d < MarchLength(yoe, mp) {
      DaysOfMarchDate(era, yoe, mp, d + 1);
      MarchDateIsValid(era, yoe, mp, d + 1);
    } else {
      var e := if yoe == 399 then era + 1 else era;
      var y := if yoe == 399 then 0 else yoe + 1;
      MonthsAreNotEmpty(y, 0);
      if mp < 11 {
        MonthsAreNotEmpty(yoe, mp + 1);
        DaysOfMarchDate(era, yoe, mp + 1, 1);
        MarchDateIsValid(era, yoe, mp + 1, 1);
      } else {
        DaysOfMarchDate(e, y, 0, 1);
        MarchDateIsValid(e, y, 0, 1);
      }
    }
  }

  /** The day number of the next calendar date is the next day number. */
  lemma DaysOfTomorrow(c: Date)
    requires Valid(c)
    ensures Valid(Tomorrow(c)) && Days(Tomorrow(c)) == Days(c) + 1
  {
    hide Days, DaysFromCivil, Tomorrow, MarchLength, MonthLength, MarchDate;
    var era, yoe, mp := AsMarchDate(c);
    MarchLengthIs(era, yoe, mp, c.d);
    DaysOfMarchTomorrow(era, yoe, mp, c.d);
  }

  /** The next day number is always the next calendar date. */
  lemma CivilOfNextDay(z: int)
    ensures CivilFromDays(z + 1) == Tomorrow(CivilFromDays(z))
  {
    hide *;
    DaysOfCivil(z);
    var c := CivilFromDays(z);
    DaysOfTomorrow(c);
    CivilOfDays(Tomorrow(c));
  }

  /** Day 0 is the Unix epoch: with the step from day to day, every date is fixed by the calendar alone. */
  lemma DayZero()
    ensures CivilFromDays(0) == EPOCH
  {
    assert Days(EPOCH) == 0;
    CivilOfDays(EPOCH);
  }

  /** Counting calendar dates from the epoch. */
  function DateAfter(n: nat): Date {
    if n == 0 then EPOCH else Tomorrow(DateAfter(n - 1))
  }

  /** The formula counts the calendar. */
  lemma {:induction false} CivilCountsDays(n: nat)
    ensures CivilFromDays(n) == DateAfter(n)
  {
    hide CivilFromDays, Tomorrow;
    if n == 0 {
      DayZero();
    } else {
      CivilCountsDays(n - 1);
      CivilOfNextDay(n - 1);
    }
  }
}
