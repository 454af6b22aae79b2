/** Calendar dates as day numbers, weekdays, the proleptic Gregorian
    calendar and the text forms the application writes dates in
    (`toISOString`, `toLocaleDateString('es-ES')`). */
module Dates {
  import opened Seqs
  import opened Text

  /** A calendar date as the number of days since 1970-01-01, a Thursday. */
  type Day = int

  /** A point in time as milliseconds since 1970-01-01T00:00:00Z, the value
      of `Date.now()`. */
  type Instant = int

  const MS_PER_DAY: int := 24 * 60 * 60 * 1000

  /** `getDay()`: 0 for Sunday, 1 for Monday, up to 6 for Saturday. */
  function JsWeekday(d: Day): (w: int)
    ensures 0 <= w < 7
  {
    (d + 4) % 7
  }

  /** The day of the week with Sunday counted as 7 instead of 0, the numbering
      schedule slots use (1 Monday ... 5 Friday). */
  function IsoWeekday(d: Day): (w: int)
    ensures 1 <= w <= 7
    ensures w == 7 <==> JsWeekday(d) == 0
    ensures w < 7 ==> w == JsWeekday(d)
  {
    var js := JsWeekday(d);
    if js == 0 then 7 else js
  }

  /** Consecutive days have consecutive weekdays, and weekdays repeat every
      seven days. */
  lemma WeekdayStep(d: Day)
    ensures JsWeekday(d + 1) == (JsWeekday(d) + 1) % 7
    ensures JsWeekday(d + 7) == JsWeekday(d)
  {
    var q := (d + 4) / 7;
    assert d + 4 == 7 * q + JsWeekday(d);
    assert d + 11 == 7 * (q + 1) + JsWeekday(d);
    if JsWeekday(d) == 6 {
      assert d + 5 == 7 * (q + 1);
    } else {
      assert d + 5 == 7 * q + (JsWeekday(d) + 1);
    }
  }

  /** The calendar day an instant falls on. */
  function DayOfInstant(t: Instant): (d: Day)
    ensures d * MS_PER_DAY <= t < (d + 1) * MS_PER_DAY
  {
    t / MS_PER_DAY
  }

  /** Going back `k` days from a day moves its weekday back by `k`. */
  lemma WeekdayBack(d: Day, k: int)
    ensures JsWeekday(d - k) == (JsWeekday(d) - k) % 7
  {
  }

  /** The first instant of a day. */
  function StartOfDay(d: Day): (t: Instant)
    ensures DayOfInstant(t) == d
  {
    d * MS_PER_DAY
  }

  datatype Civil = Civil(year: int, month: int, day: int)

  // --- The proleptic Gregorian calendar ------------------------------------------
  //
  // Day numbers are converted with the era arithmetic of the proleptic
  // Gregorian calendar: an era is 400 years or 146097 days, and inside an era
  // years are counted from 1 March, so that the leap day is the last day of
  // the counted year.

  predicate LeapYear(y: int) {
    y % 4 == 0 && (y % 100 != 0 || y % 400 == 0)
  }

  /** The number of days of month `m` (1-12) of year `y`. */
  function MonthLength(y: int, m: int): (n: int)
    requires 1 <= m <= 12
    ensures 28 <= n <= 31
    ensures n == 29 <==> m == 2 && LeapYear(y)
  {
    if m == 2 then (if LeapYear(y) then 29 else 28)
    else if m == 4 || m == 6 || m == 9 || m == 11 then 30
    else 31
  }

  predicate ValidDate(y: int, m: int, d: int) {
    1 <= m <= 12 && 1 <= d <= MonthLength(y, m)
  }

  /** The day of the era on which year `yoe` of the era begins. */
  function YearStart(yoe: int): int {
    yoe * 365 + yoe / 4 - yoe / 100
  }

  /** The year of the era that day `doe` of the era falls in. */
  function YearOfEra(doe: int): int {
    (doe - doe / 1460 + doe / 36524 - doe / 146096) / 365
  }

  /** The day of the counted year on which month `mp` begins, 0 for March. */
  function MonthStart(mp: int): int {
    (153 * mp + 2) / 5
  }

  /** The day number of a proleptic Gregorian date (month 1-12). */
  function DaysFromCivil(y: int, m: int, d: int): Day
  {
    var y' := if m <= 2 then y - 1 else y;
    var era := y' / 400;
    var yoe := y' - era * 400;
    var mp := if m > 2 then m - 3 else m + 9;
    era * 146097 + YearStart(yoe) + MonthStart(mp) + d - 1 - 719468
  }

  /** The proleptic Gregorian date of a day number. */
  function CivilFromDays(z0: Day): (c: Civil)
    ensures ValidDate(c.year, c.month, c.day)
    ensures 1 <= c.month <= 12 && 1 <= c.day <= 31
  {
    var z := z0 + 719468;
    var era := z / 146097;
    var doe := z - era * 146097;
    CivilOfEraValid(era, doe);
    CivilOfEra(era, doe)
  }

  /** The date of day `doe` of era `era`. */
  function CivilOfEra(era: int, doe: int): Civil {
    var yoe := YearOfEra(doe);
    var doy := doe - YearStart(yoe);
    var mp := (5 * doy + 2) / 153;
    var m := if mp < 10 then mp + 3 else mp - 9;
    Civil(if m <= 2 then yoe + era * 400 + 1 else yoe + era * 400, m, doy - MonthStart(mp) + 1)
  }

  lemma Mod4Period(k: int, r: int)
    ensures (4 * k + r) % 4 == r % 4
  {
  }

  lemma Mod100Period(k: int, r: int)
    ensures (100 * k + r) % 100 == r % 100
  {
  }

  lemma Mod400Period(k: int, r: int)
    ensures (400 * k + r) % 400 == r % 400
  {
  }

  /** Leap years repeat every 400 years. */
  lemma LeapYearPeriod(era: int, yoe: int)
    ensures LeapYear(era * 400 + yoe) == LeapYear(yoe)
  {
    Mod4Period(era * 100, yoe);
    Mod100Period(era * 4, yoe);
    Mod400Period(era, yoe);
  }

  /** Counted year `yoe` of an era has 366 days when the February that ends
      it has a 29th. */
  predicate LongYear(yoe: int) {
    yoe % 4 == 3 && (yoe % 100 != 99 || yoe == 399)
  }

  lemma LongYearLeap(yoe: int)
    requires 0 <= yoe < 400
    ensures LongYear(yoe) == LeapYear(yoe + 1)
  {
    assert (yoe + 1) % 4 == 0 <==> yoe % 4 == 3;
    assert (yoe + 1) % 100 == 0 <==> yoe % 100 == 99;
    assert (yoe + 1) % 400 == 0 <==> yoe == 399;
  }

  lemma YearStartStep(yoe: int)
    requires 0 <= yoe < 399
    ensures YearStart(yoe + 1) == YearStart(yoe) + (if LongYear(yoe) then 366 else 365)
  {
  }

  /** Year `yoe` of an era begins after `yoe / 100` centuries of 36524 days,
      `yoe % 100 / 4` spans of four years of 1461 days and `yoe % 4` years. */
  lemma YearStartParts(yoe: int)
    requires 0 <= yoe < 400
    ensures yoe == 100 * (yoe / 100) + 4 * (yoe % 100 / 4) + yoe % 4
    ensures YearStart(yoe) == 36524 * (yoe / 100) + 1461 * (yoe % 100 / 4) + 365 * (yoe % 4)
  {
  }

  lemma YearOfEraOfParts(a: int, b: int, e: int, doy: int)
    requires 0 <= a < 4 && 0 <= b < 25 && 0 <= e < 4 && 0 <= doy <= 365
    requires doy == 365 ==> e == 3 && (b != 24 || a == 3)
    ensures YearOfEra(36524 * a + 1461 * b + 365 * e + doy) == 100 * a + 4 * b + e
  {
    var doe := 36524 * a + 1461 * b + 365 * e + doy;
    var t := (24 * a + b + 365 * e + doy) / 1460;
    assert doe / 1460 == 25 * a + b + t;
    assert doe / 36524 == a + doe / 146096;
  }

  /** Every day of a counted year is read back as that year. */
  lemma YearOfEraInverse(yoe: int, doy: int)
    requires 0 <= yoe < 400 && 0 <= doy <= 365
    requires doy == 365 ==> LongYear(yoe)
    ensures YearOfEra(YearStart(yoe) + doy) == yoe
  {
    YearStartParts(yoe);
    YearOfEraOfParts(yoe / 100, yoe % 100 / 4, yoe % 4, doy);
  }

  lemma DayOfEraBounds(yoe: int, doy: int)
    requires 0 <= yoe < 400 && 0 <= doy <= 365
    ensures 0 <= YearStart(yoe) + doy < 146097
  {
    YearStartParts(yoe);
  }

  /** The counted year of the era whose first day is the last one not after `doe`. */
  function FindYear(doe: int, k: int): (y: int)
    requires 0 <= k < 400 && 0 <= doe < YearStart(k + 1)
    ensures 0 <= y <= k && YearStart(y) <= doe < YearStart(y + 1)
    decreases k
  {
    if k == 0 || YearStart(k) <= doe then k else FindYear(doe, k - 1)
  }

  /** The year of the era of a day is the counted year it falls in. */
  lemma DayOfYearBounds(doe: int)
    requires 0 <= doe < 146097
    ensures var yoe := YearOfEra(doe);
      0 <= yoe < 400 && 0 <= doe - YearStart(yoe) <= 365
      && (doe - YearStart(yoe) == 365 ==> LongYear(yoe))
  {
    if doe == 146096 {
      YearOfEraInverse(399, 365);
    } else {
      var y := FindYear(doe, 399);
      if y < 399 {
        YearStartStep(y);
      }
      YearOfEraInverse(y, doe - YearStart(y));
    }
  }

  lemma MonthOfYear(doy: int)
    requires 0 <= doy <= 365
    ensures var mp := (5 * doy + 2) / 153; 0 <= mp <= 11 && MonthStart(mp) <= doy
  {
  }

  lemma DaysFromCivilParts(era: int, yoe: int, mp: int, d: int)
    requires 0 <= yoe < 400 && 0 <= mp <= 11
    ensures var m := if mp < 10 then mp + 3 else mp - 9;
      var y := if m <= 2 then yoe + era * 400 + 1 else yoe + era * 400;
      DaysFromCivil(y, m, d) == era * 146097 + YearStart(yoe) + MonthStart(mp) + d - 1 - 719468
  {
    assert (yoe + era * 400) / 400 == era;
  }

  lemma DaysOfCivilOfEra(era: int, doe: int)
    requires 0 <= doe < 146097
    ensures var c := CivilOfEra(era, doe); DaysFromCivil(c.year, c.month, c.day) == era * 146097 + doe - 719468
  {
    DayOfYearBounds(doe);
    var yoe := YearOfEra(doe);
    var doy := doe - YearStart(yoe);
    MonthOfYear(doy);
    var mp := (5 * doy + 2) / 153;
    var d := doy - MonthStart(mp) + 1;
    var m := if mp < 10 then mp + 3 else mp - 9;
    assert CivilOfEra(era, doe) == Civil(if m <= 2 then yoe + era * 400 + 1 else yoe + era * 400, m, d);
    DaysFromCivilParts(era, yoe, mp, d);
  }

  /** Converting a day number to a date and back gives the day number again. */
  lemma {:induction false} DaysFromCivilOfCivil(z0: Day)
    ensures var c := CivilFromDays(z0); DaysFromCivil(c.year, c.month, c.day) == z0
  {
    var z := z0 + 719468;
    var era := z / 146097;
    DaysOfCivilOfEra(era, z - era * 146097);
  }

  /** The date of every day of an era is a valid date. */
  lemma CivilOfEraValid(era: int, doe: int)
    requires 0 <= doe < 146097
    ensures var c := CivilOfEra(era, doe); ValidDate(c.year, c.month, c.day)
  {
    DayOfYearBounds(doe);
    var yoe := YearOfEra(doe);
    var doy := doe - YearStart(yoe);
    MonthOfYear(doy);
    if doy == 365 {
      LongYearLeap(yoe);
      LeapYearPeriod(era, yoe + 1);
      assert yoe + era * 400 + 1 == era * 400 + (yoe + 1);
    }
  }

  lemma CivilOfEraOfDays(era: int, yoe: int, mp: int, d: int)
    requires 0 <= yoe < 400 && 0 <= mp <= 11 && 1 <= d
    requires var doy := MonthStart(mp) + d - 1;
      YearOfEra(YearStart(yoe) + doy) == yoe && (5 * doy + 2) / 153 == mp
    ensures var m := if mp < 10 then mp + 3 else mp - 9;
      var y := if m <= 2 then yoe + era * 400 + 1 else yoe + era * 400;
      CivilOfEra(era, YearStart(yoe) + MonthStart(mp) + d - 1) == Civil(y, m, d)
  {
  }

  lemma CivilFromDaysOfEra(z0: Day, era: int, doe: int)
    requires 0 <= doe < 146097 && z0 == era * 146097 + doe - 719468
    ensures CivilFromDays(z0) == CivilOfEra(era, doe)
  {
    assert (z0 + 719468) / 146097 == era;
  }

  /** The day of the counted year of a valid date, and its month read back. */
  lemma DayOfYearOfDate(y: int, m: int, d: int)
    requires ValidDate(y, m, d)
    ensures var mp := if m > 2 then m - 3 else m + 9;
      var doy := MonthStart(mp) + d - 1;
      0 <= doy <= 365 && (5 * doy + 2) / 153 == mp
      && (doy == 365 ==> m == 2 && LeapYear(y))
  {
  }

  lemma DaysFromCivilOfDate(y: int, m: int, d: int)
    requires 1 <= m <= 12
    ensures var y' := if m <= 2 then y - 1 else y;
      var era := y' / 400;
      var yoe := y' - era * 400;
      var mp := if m > 2 then m - 3 else m + 9;
      0 <= yoe < 400
      && DaysFromCivil(y, m, d) == era * 146097 + (YearStart(yoe) + (MonthStart(mp) + d - 1)) - 719468
      && (if mp < 10 then mp + 3 else mp - 9) == m
      && (if m <= 2 then yoe + era * 400 + 1 else yoe + era * 400) == y
  {
  }

  lemma CivilOfEraParts(y: int, m: int, d: int, era: int, yoe: int, mp: int, doy: int)
    requires 1 <= m <= 12 && 1 <= d
    requires y == (if m <= 2 then yoe + era * 400 + 1 else yoe + era * 400)
    requires mp == (if m > 2 then m - 3 else m + 9) && doy == MonthStart(mp) + d - 1
    requires 0 <= yoe < 400 && 0 <= doy <= 365 && (5 * doy + 2) / 153 == mp
    requires DaysFromCivil(y, m, d) == era * 146097 + YearStart(yoe) + doy - 719468
    requires YearOfEra(YearStart(yoe) + doy) == yoe
    ensures CivilFromDays(DaysFromCivil(y, m, d)) == Civil(y, m, d)
  {
    DayOfEraBounds(yoe, doy);
    CivilFromDaysOfEra(DaysFromCivil(y, m, d), era, YearStart(yoe) + doy);
  }

  /** Converting a valid date to its day number and back gives the date again. */
  lemma {:induction false} CivilOfDaysFromCivil(y: int, m: int, d: int)
    requires ValidDate(y, m, d)
    ensures CivilFromDays(DaysFromCivil(y, m, d)) == Civil(y, m, d)
  {
    var y' := if m <= 2 then y - 1 else y;
    var era := y' / 400;
    var yoe := y' - era * 400;
    var mp := if m > 2 then m - 3 else m + 9;
    var doy := MonthStart(mp) + d - 1;
    DaysFromCivilOfDate(y, m, d);
    DayOfYearOfDate(y, m, d);
    if doy == 365 {
      assert y == era * 400 + (yoe + 1);
      LeapYearPeriod(era, yoe + 1);
      LongYearLeap(yoe);
    }
    YearOfEraInverse(yoe, doy);
    CivilOfEraParts(y, m, d, era, yoe, mp, doy);
  }

  /** Day `d` of a month is `d - 1` days after its first. */
  lemma DayOfMonthOffset(y: int, m: int, d: int)
    ensures DaysFromCivil(y, m, d) == DaysFromCivil(y, m, 1) + d - 1
  {
  }

  /** The days from 1 February to 1 March: 28, or 29 in a leap year. */
  lemma FebruaryStep(y: int)
    ensures DaysFromCivil(y, 3, 1) == DaysFromCivil(y, 2, 1) + MonthLength(y, 2)
  {
    var k, yoe := (y - 1) / 400, (y - 1) % 400;
    assert 0 <= yoe < 400 && y == 400 * k + yoe + 1;
    DaysOfFebruaryFirst(k, yoe);
    DaysOfMarchFirstAfter(k, yoe);
    FebruaryLength(k, yoe);
  }

  /** February of the year after year `yoe` of era `k` is long exactly when
      year `yoe` is a long counted year. */
  lemma FebruaryLength(k: int, yoe: int)
    requires 0 <= yoe < 400
    ensures MonthLength(400 * k + yoe + 1, 2) == if LongYear(yoe) then 29 else 28
  {
    LongYearLeap(yoe);
    if yoe == 399 {
      assert 400 * k + yoe + 1 == (k + 1) * 400 + 0;
      LeapYearPeriod(k + 1, 0);
    } else {
      assert 400 * k + yoe + 1 == k * 400 + (yoe + 1);
      LeapYearPeriod(k, yoe + 1);
    }
  }

  /** The day number of 1 March of the year after year `yoe` of era `k`. */
  lemma DaysOfMarchFirstAfter(k: int, yoe: int)
    requires 0 <= yoe < 400
    ensures DaysFromCivil(400 * k + yoe + 1, 3, 1)
      == k * 146097 + YearStart(yoe) + (if LongYear(yoe) then 366 else 365) - 719468
  {
    if yoe == 399 {
      assert 400 * k + yoe + 1 == 400 * (k + 1) + 0;
      DaysOfMarchFirst(k + 1, 0);
      assert YearStart(399) == 145731 && YearStart(0) == 0;
    } else {
      DaysOfMarchFirst(k, yoe + 1);
      YearStartStep(yoe);
    }
  }

  lemma Div400(k: int, r: int)
    requires 0 <= r < 400
    ensures (400 * k + r) / 400 == k
  {
  }

  /** The day number of 1 March of year `yoe` of era `k`. */
  lemma DaysOfMarchFirst(k: int, yoe: int)
    requires 0 <= yoe < 400
    ensures DaysFromCivil(400 * k + yoe, 3, 1) == k * 146097 + YearStart(yoe) - 719468
  {
    Div400(k, yoe);
  }

  /** The day number of 1 February of the year after year `yoe` of era `k`,
      which the era arithmetic counts in year `yoe`. */
  lemma DaysOfFebruaryFirst(k: int, yoe: int)
    requires 0 <= yoe < 400
    ensures DaysFromCivil(400 * k + yoe + 1, 2, 1) == k * 146097 + YearStart(yoe) + 337 - 719468
  {
    Div400(k, yoe);
    assert MonthStart(11) == 337;
  }

  /** The first of the next month is the first of this month plus its
      length; after December comes January of the next year. */
  lemma MonthStep(y: int, m: int)
    requires 1 <= m <= 12
    ensures DaysFromCivil(if m == 12 then y + 1 else y, if m == 12 then 1 else m + 1, 1)
      == DaysFromCivil(y, m, 1) + MonthLength(y, m)
  {
    if m == 2 {
      FebruaryStep(y);
    } else if m == 12 {
      assert MonthStart(9) == 275 && MonthStart(10) == 306;
    } else if m == 1 {
      assert MonthStart(10) == 306 && MonthStart(11) == 337;
    } else {
      assert MonthStart(m - 3) + MonthLength(y, m) == MonthStart(m - 2);
    }
  }

  /** The day after the last day of a month is the first of the next month. */
  lemma DayAfterMonthEnd(y: int, m: int)
    requires 1 <= m <= 12
    ensures DaysFromCivil(y, m, MonthLength(y, m)) + 1
      == DaysFromCivil(if m == 12 then y + 1 else y, if m == 12 then 1 else m + 1, 1)
  {
    MonthStep(y, m);
  }

  /** The date after a valid date: the next day of the month, the first of
      the next month or New Year's Day. */
  function NextDate(c: Civil): Civil
    requires ValidDate(c.year, c.month, c.day)
  {
    if c.day < MonthLength(c.year, c.month) then Civil(c.year, c.month, c.day + 1)
    else if c.month < 12 then Civil(c.year, c.month + 1, 1)
    else Civil(c.year + 1, 1, 1)
  }

  lemma NextDateDays(c: Civil)
    requires ValidDate(c.year, c.month, c.day)
    ensures var n := NextDate(c);
      ValidDate(n.year, n.month, n.day) && DaysFromCivil(n.year, n.month, n.day) == DaysFromCivil(c.year, c.month, c.day) + 1
  {
    if c.day == MonthLength(c.year, c.month) {
      DayAfterMonthEnd(c.year, c.month);
    }
  }

  /** The date of the day after a day is the date after its date. */
  lemma {:induction false} NextDay(z: Day)
    ensures CivilFromDays(z + 1) == NextDate(CivilFromDays(z))
  {
    var c := CivilFromDays(z);
    DaysFromCivilOfCivil(z);
    NextDateDays(c);
    var n := NextDate(c);
    CivilOfDaysFromCivil(n.year, n.month, n.day);
  }

  /** `String(n)` for any integer. */
  function IntToString(n: int): (s: string)
    ensures |s| >= 1
  {
    if n < 0 then "-" + NatToString(-n) else NatToString(n)
  }

  /** The year as `toISOString` writes it: four digits for years 0 to 9999,
      otherwise a sign and six digits. */
  function IsoYear(y: int): (s: string)
    ensures 0 <= y <= 9999 ==> |s| == 4 && AllDigits(s) && DigitsValue(s) == y
  {
    if 0 <= y <= 9999 then
      NatToStringLength(y, 4);
      DigitsValueOfZeroPad(y, 4);
      ZeroPad(y, 4)
    else if y < 0 then "-" + ZeroPad(-y, 6)
    else "+" + ZeroPad(y, 6)
  }

  /** `date.toISOString().split('T')[0]`: the date as `YYYY-MM-DD`. */
  function IsoDate(d: Day): (s: string)
    ensures |s| >= 10
  {
    var c := CivilFromDays(d);
    NatToStringLength(c.month, 2);
    NatToStringLength(c.day, 2);
    IsoYear(c.year) + "-" + ZeroPad(c.month, 2) + "-" + ZeroPad(c.day, 2)
  }

  /** `date.toISOString()`: `YYYY-MM-DDTHH:MM:SS.mmmZ`. */
  function IsoTimestamp(t: Instant): (s: string)
    ensures |s| >= 24
  {
    var d := DayOfInstant(t);
    var ms: nat := t - d * MS_PER_DAY;
    NatToStringLength(ms / 3600000, 2);
    NatToStringLength(ms / 60000 % 60, 2);
    NatToStringLength(ms / 1000 % 60, 2);
    NatToStringLength(ms % 1000, 3);
    IsoDate(d) + "T" + ZeroPad(ms / 3600000, 2) + ":" + ZeroPad(ms / 60000 % 60, 2) + ":"
    + ZeroPad(ms / 1000 % 60, 2) + "." + ZeroPad(ms % 1000, 3) + "Z"
  }

  /** `toLocaleDateString('es-ES')`: day, month and year without padding,
      separated by `/`. */
  function SpanishDate(d: Day): (s: string)
    ensures '/' in s
  {
    var c := CivilFromDays(d);
    NatToString(c.day) + "/" + NatToString(c.month) + "/" + IntToString(c.year)
  }

  function Pow10(k: nat): (p: nat)
    ensures p >= 1
  {
    if k == 0 then 1 else 10 * Pow10(k - 1)
  }

  /** A number below 10^k has at most k digits. */
  lemma {:induction false} NatToStringLength(n: nat, k: nat)
    requires 1 <= k && n < Pow10(k)
    ensures |NatToString(n)| <= k
  {
    if n >= 10 {
      NatToStringLength(n / 10, k - 1);
    }
  }

  /** The month and the day of an ISO date take two digits each. */
  lemma IsoDateParts(d: Day)
    ensures var c := CivilFromDays(d);
      |ZeroPad(c.month, 2)| == 2 && |ZeroPad(c.day, 2)| == 2
      && IsoDate(d) == IsoYear(c.year) + "-" + ZeroPad(c.month, 2) + "-" + ZeroPad(c.day, 2)
  {
    var c := CivilFromDays(d);
    NatToStringLength(c.month, 2);
    NatToStringLength(c.day, 2);
  }

  /** For a four-digit year the ISO date is exactly `YYYY-MM-DD`: ten
      characters, dashes at positions 4 and 7 and digits elsewhere. */
  lemma IsoDateShape(d: Day)
    requires 0 <= CivilFromDays(d).year <= 9999
    ensures var s := IsoDate(d);
      |s| == 10 && s[4] == '-' && s[7] == '-'
      && (forall i :: 0 <= i < 10 && i != 4 && i != 7 ==> IsDigit(s[i]))
  {
    IsoDateParts(d);
  }

  lemma RemoveDashes(y: string, m: string, dd: string)
    requires '-' !in m && '-' !in dd
    ensures RemoveChar(y + "-" + m + "-" + dd, '-') == RemoveChar(y, '-') + m + dd
  {
    var dash := RemoveChar("-", '-');
    assert dash == [];
    var a := y + "-";
    RemoveCharAppend(y, "-", '-');
    assert RemoveChar(a, '-') == RemoveChar(y, '-');
    var b := a + m;
    RemoveCharAppend(a, m, '-');
    RemoveCharAbsent(m, '-');
    assert RemoveChar(b, '-') == RemoveChar(y, '-') + m;
    var e := b + "-";
    RemoveCharAppend(b, "-", '-');
    assert RemoveChar(e, '-') == RemoveChar(y, '-') + m;
    RemoveCharAppend(e, dd, '-');
    RemoveCharAbsent(dd, '-');
  }

  /** Removing the dashes from an ISO date leaves the digits of the year, the
      month and the day, eight digits for a four-digit year. */
  lemma CompactIsoDate(d: Day)
    ensures var c := CivilFromDays(d);
      RemoveChar(IsoDate(d), '-') == RemoveChar(IsoYear(c.year), '-') + ZeroPad(c.month, 2) + ZeroPad(c.day, 2)
    ensures 0 <= CivilFromDays(d).year <= 9999 ==>
      var s := RemoveChar(IsoDate(d), '-'); |s| == 8 && AllDigits(s)
  {
    var c := CivilFromDays(d);
    IsoDateParts(d);
    var y, m, dd := IsoYear(c.year), ZeroPad(c.month, 2), ZeroPad(c.day, 2);
    RemoveDashes(y, m, dd);
    if 0 <= c.year <= 9999 {
      RemoveCharAbsent(y, '-');
    }
  }

  /** 2025-11-25 is day 20417 and a Tuesday. */
  lemma GoldenServiceDay()
    ensures DaysFromCivil(2025, 11, 25) == 20417
    ensures JsWeekday(20417) == 2
  {
    assert (153 * 8 + 2) / 5 == 245 && 2025 / 400 == 5;
  }

  lemma GoldenServiceCivil()
    ensures CivilFromDays(20417) == Civil(2025, 11, 25)
  {
    assert 739885 / 146097 == 5;
    assert 9400 / 1460 == 6 && 9400 / 36524 == 0 && 9400 / 146096 == 0;
    assert 9394 / 365 == 25;
    assert 1347 / 153 == 8 && 1226 / 5 == 245;
  }
}
