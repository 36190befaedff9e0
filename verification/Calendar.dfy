/**
 Calendar arithmetic of the client SDKs (days_from_civil / civil_from_days).

 Python's floor division by a positive divisor is Dafny's Euclidean division, so
 the two formulas are written as they stand, over all integers.
 */
module Calendar {

  datatype Civil = Civil(y: int, m: int, d: int)

  predicate IsLeap(y: int) {
    y % 4 == 0 && (y % 100 != 0 || y % 400 == 0)
  }

  function DaysInMonth(y: int, m: int): int {
    if m == 2 then (if IsLeap(y) then 29 else 28)
    else if m == 4 || m == 6 || m == 9 || m == 11 then 30
    else 31
  }

  /** A date of the proleptic Gregorian calendar. */
  predicate ValidDate(c: Civil) {
    1 <= c.m <= 12 && 1 <= c.d <= DaysInMonth(c.y, c.m)
  }

  /** The calendar day after a date, by the rules of the calendar alone. */
  function NextDay(c: Civil): Civil {
    if c.d < DaysInMonth(c.y, c.m) then Civil(c.y, c.m, c.d + 1)
    else if c.m < 12 then Civil(c.y, c.m + 1, 1)
    else Civil(c.y + 1, 1, 1)
  }

  /** First day of March-based year `yoe` of an era. */
  function YearStart(yoe: int): int {
    365 * yoe + yoe / 4 - yoe / 100
  }

  function DaysFromCivil(c: Civil): int {
    var yAdj := if c.m <= 2 then c.y - 1 else c.y;
    var era := yAdj / 400;
    var yoe := yAdj - era * 400;
    var mp := (c.m + 9) % 12;
    var doy := (153 * mp + 2) / 5 + c.d - 1;
    var doe := YearStart(yoe) + doy;
    era * 146097 + doe - 719468 + 719162
  }

  function CivilFromDays(z: int): Civil {
    var z2 := z - 719162 + 719468;
    var era := z2 / 146097;
    var doe := z2 - era * 146097;
    var yoe := YearOfEra(doe);
    CivilOfParts(era, yoe, doe - YearStart(yoe))
  }

  /** The date of day `doy` of the March-based year `yoe` of an era. */
  function CivilOfParts(era: int, yoe: int, doy: int): Civil {
    var y := yoe + era * 400;
    var mp := (5 * doy + 2) / 153;
    var d := doy - (153 * mp + 2) / 5 + 1;
    var m := if mp < 10 then mp + 3 else mp - 9;
    Civil(if m <= 2 then y + 1 else y, m, d)
  }

  function YearOfEra(doe: int): int {
    (doe - doe / 1460 + doe / 36524 - doe / 146096) / 365
  }

  /** Days of the March-based year `yoe` (0..399): it ends with February of the next year. */
  function YearLength(yoe: int): int {
    if IsLeap(yoe + 1) then 366 else 365
  }

  /** A day of the era, split by century `c`, leap cycle `q` and year of cycle `r`. */
  lemma YearParts(yoe: int, doy: int) returns (c: int, q: int, r: int)
    requires 0 <= yoe < 400 && 0 <= doy < YearLength(yoe)
    ensures 0 <= c < 4 && 0 <= q < 25 && 0 <= r < 4 && yoe == 100 * c + 4 * q + r
    ensures YearStart(yoe) == 36524 * c + 1461 * q + 365 * r
    ensures doy <= 365 && (doy == 365 ==> r == 3 && (q == 24 ==> c == 3))
  {
    c := yoe / 100;
    var rest := yoe - 100 * c;
    q, r := rest / 4, rest % 4;
    assert yoe / 4 == 25 * c + q;
    if doy == 365 {
      assert IsLeap(yoe + 1);
      assert (yoe + 1) % 4 == 0;
      if q == 24 {
        assert yoe + 1 == 100 * (c + 1);
      }
    }
  }

  /** What the three correction terms of the formula count. */
  lemma Corrections(c: int, q: int, r: int, doy: int)
    requires 0 <= c < 4 && 0 <= q < 25 && 0 <= r < 4 && 0 <= doy <= 365
    requires doy == 365 ==> r == 3 && (q == 24 ==> c == 3)
    ensures var doe := 36524 * c + 1461 * q + 365 * r + doy;
            var w := 24 * c + q + 365 * r + doy;
            && doe / 1460 == 25 * c + q + (if w >= 1460 then 1 else 0)
            && doe / 36524 - doe / 146096 == c
  {
    var doe := 36524 * c + 1461 * q + 365 * r + doy;
    var w := 24 * c + q + 365 * r + doy;
    assert doe == 1460 * (25 * c + q) + w;
  }

  /** The closed formula finds the year that a day of the era falls in. */
  lemma YearOfEraCorrect(yoe: int, doy: int)
    requires 0 <= yoe < 400 && 0 <= doy < YearLength(yoe)
    ensures 0 <= YearStart(yoe) + doy < 146097
    ensures YearOfEra(YearStart(yoe) + doy) == yoe
  {
    var c, q, r := YearParts(yoe, doy);
    Corrections(c, q, r, doy);
  }

  /** Every day of an era belongs to one of its 400 March-based years. */
  lemma EraDay(doe: int) returns (yoe: int, doy: int)
    requires 0 <= doe < 146097
    ensures 0 <= yoe < 400 && 0 <= doy < YearLength(yoe) && doe == YearStart(yoe) + doy
  {
    var c := if doe >= 109572 then 3 else doe / 36524;
    var inCentury := doe - 36524 * c;
    var q := inCentury / 1461;
    var inCycle := inCentury - 1461 * q;
    var r := if inCycle >= 1095 then 3 else inCycle / 365;
    yoe, doy := 100 * c + 4 * q + r, inCycle - 365 * r;
    assert yoe / 4 == 25 * c + q && yoe / 100 == c;
    if doy == 365 {
      assert (yoe + 1) % 4 == 0;
      assert q == 24 ==> yoe + 1 == 400;
      assert q < 24 ==> (yoe + 1) - 100 * c == 4 * (q + 1);
      assert q < 24 ==> (yoe + 1) % 100 != 0;
    }
  }

  /** The month formula inverts the month-start formula on the days of that month. */
  lemma MonthOfYear(mp: int, d: int)
    requires 0 <= mp < 12 && 1 <= d
    requires (153 * mp + 2) / 5 + d <= (153 * (mp + 1) + 2) / 5
    ensures (5 * ((153 * mp + 2) / 5 + d - 1) + 2) / 153 == mp
  {
  }

  /** Shifting by multiples of `k` does not change the remainder. */
  lemma ShiftedRemainder(y: int, q: int, k: int)
    requires k == 4 || k == 100 || k == 400
    ensures (y + q * k) % k == y % k
  {
  }

  /** Shifting by whole eras does not change which years are leap years. */
  lemma LeapByEra(era: int, y: int)
    ensures IsLeap(era * 400 + y) <==> IsLeap(y)
  {
    ShiftedRemainder(y, era, 400);
    ShiftedRemainder(y, 4 * era, 100);
    ShiftedRemainder(y, 100 * era, 4);
  }

  /** `days_from_civil` in the terms of its intermediate quantities. */
  lemma DaysParts(c: Civil) returns (era: int, yoe: int, mp: int, doy: int)
    requires ValidDate(c)
    ensures 1 <= c.m <= 12 && 1 <= c.d && 0 <= yoe < 400 && 0 <= mp < 12
    ensures mp == (if c.m <= 2 then c.m + 9 else c.m - 3)
    ensures era * 400 + yoe == (if c.m <= 2 then c.y - 1 else c.y)
    ensures doy == (153 * mp + 2) / 5 + c.d - 1 && 0 <= doy < YearLength(yoe)
    ensures doy < (153 * (mp + 1) + 2) / 5
    ensures DaysFromCivil(c) == era * 146097 + YearStart(yoe) + doy - 306
  {
    var yAdj := if c.m <= 2 then c.y - 1 else c.y;
    era, yoe := yAdj / 400, yAdj % 400;
    mp := if c.m <= 2 then c.m + 9 else c.m - 3;
    doy := (153 * mp + 2) / 5 + c.d - 1;
    assert mp == (c.m + 9) % 12;
    LeapByEra(era, yoe + 1);
  }

  lemma EraOfDay(era: int, doe: int)
    requires 0 <= doe < 146097
    ensures (era * 146097 + doe) / 146097 == era
  {
  }

  /** `civil_from_days` finds the era, the year and the day of the year. */
  lemma CivilFromParts(era: int, yoe: int, doy: int)
    requires 0 <= yoe < 400 && 0 <= doy < YearLength(yoe)
    ensures CivilFromDays(era * 146097 + YearStart(yoe) + doy - 306) == CivilOfParts(era, yoe, doy)
  {
    YearOfEraCorrect(yoe, doy);
    EraOfDay(era, YearStart(yoe) + doy);
    hide YearStart, YearOfEra, YearLength, CivilOfParts;
    var z2 := era * 146097 + YearStart(yoe) + doy - 306 - 719162 + 719468;
    assert z2 / 146097 == era;
    assert YearOfEra(z2 - era * 146097) == yoe;
  }

  lemma MonthInRange(doy: int)
    requires 0 <= doy < 366
    ensures 0 <= (5 * doy + 2) / 153 <= 11
  {
  }

  lemma DateOfParts(c: Civil, era: int, yoe: int, mp: int, doy: int)
    requires 1 <= c.m <= 12 && 1 <= c.d && mp == (if c.m <= 2 then c.m + 9 else c.m - 3)
    requires era * 400 + yoe == (if c.m <= 2 then c.y - 1 else c.y)
    requires doy == (153 * mp + 2) / 5 + c.d - 1 && doy < (153 * (mp + 1) + 2) / 5
    ensures CivilOfParts(era, yoe, doy) == c
  {
    MonthOfYear(mp, c.d);
  }

  /** Converting a valid date to a day number and back gives the date. */
  lemma CivilRoundTrip(c: Civil)
    requires ValidDate(c)
    ensures CivilFromDays(DaysFromCivil(c)) == c
  {
    var era, yoe, mp, doy := DaysParts(c);
    CivilFromParts(era, yoe, doy);
    hide *;
    DateOfParts(c, era, yoe, mp, doy);
  }

  /** The month and day that a day of the March-based year falls on. */
  lemma MonthParts(doy: int) returns (mp: int, d: int)
    requires 0 <= doy < 366
    ensures mp == (5 * doy + 2) / 153 && d == doy - (153 * mp + 2) / 5 + 1
    ensures 0 <= mp < 12 && 1 <= d
    ensures (153 * mp + 2) / 5 + d <= (153 * (mp + 1) + 2) / 5
  {
    mp := (5 * doy + 2) / 153;
    d := doy - (153 * mp + 2) / 5 + 1;
  }

  /** `civil_from_days` in the terms of its intermediate quantities. */
  lemma CivilParts(z: int) returns (era: int, yoe: int, doy: int)
    ensures 0 <= yoe < 400 && 0 <= doy < YearLength(yoe)
    ensures z + 306 == era * 146097 + YearStart(yoe) + doy
    ensures CivilFromDays(z) == CivilOfParts(era, yoe, doy)
  {
    era := (z + 306) / 146097;
    yoe, doy := EraDay((z + 306) - era * 146097);
    CivilFromParts(era, yoe, doy);
  }

  /** The month-start formula steps by the lengths of the months March to January. */
  lemma MonthLengths(y: int, mp: int)
    requires 0 <= mp < 11
    ensures (153 * (mp + 1) + 2) / 5 - (153 * mp + 2) / 5
         == DaysInMonth(y, if mp < 10 then mp + 3 else 1)
  {
  }

  lemma PartsAreValid(era: int, yoe: int, doy: int)
    requires 0 <= yoe < 400 && 0 <= doy < YearLength(yoe)
    ensures ValidDate(CivilOfParts(era, yoe, doy))
  {
    var mp, d := MonthParts(doy);
    var c := CivilOfParts(era, yoe, doy);
    if mp < 11 {
      MonthLengths(c.y, mp);
    } else {
      LeapByEra(era, yoe + 1);
      assert c.m == 2 && c.y == era * 400 + (yoe + 1);
      assert (153 * 11 + 2) / 5 == 337;
    }
  }

  /** Every day number is the number of the valid date it converts to. */
  lemma DaysRoundTrip(z: int)
    ensures ValidDate(CivilFromDays(z))
    ensures DaysFromCivil(CivilFromDays(z)) == z
  {
    var era, yoe, doy := CivilParts(z);
    PartsAreValid(era, yoe, doy);
    var era', yoe', mp', doy' := DaysParts(CivilFromDays(z));
    MonthInRange(doy);
    hide DaysFromCivil, CivilFromDays, YearStart, YearLength, ValidDate;
    assert mp' == (5 * doy + 2) / 153 && doy' == doy;
    assert era' == era && yoe' == yoe;
  }

  lemma NextYearStart(yoe: int)
    requires 0 <= yoe < 399
    ensures YearStart(yoe + 1) == YearStart(yoe) + YearLength(yoe)
  {
    var c, q, r := YearParts(yoe, 0);
    assert (yoe + 1) / 100 == c + (if q == 24 && r == 3 then 1 else 0);
    assert (yoe + 1) % 4 == (if r == 3 then 0 else r + 1);
    assert (yoe + 1) % 100 == 0 <==> q == 24 && r == 3;
  }

  /** The last day of February is the last day of its March-based year. */
  lemma NewMarchYear(c: Civil, era: int, yoe: int, doy: int)
    requires ValidDate(c) && c.m == 2 && c.d == DaysInMonth(c.y, 2)
    requires 0 <= yoe < 400 && era * 400 + yoe == c.y - 1
    requires doy == (153 * 11 + 2) / 5 + c.d - 1
    ensures doy == YearLength(yoe) - 1
  {
    LeapByEra(era, yoe + 1);
    assert (153 * 11 + 2) / 5 == 337;
  }

  lemma NextDayIsValid(c: Civil)
    requires ValidDate(c)
    ensures ValidDate(NextDay(c))
  {
  }

  /** Within a March-based year the next date is the next day of that year. */
  lemma NextDayOfYear(c: Civil, mp: int)
    requires ValidDate(c) && mp == (if c.m <= 2 then c.m + 9 else c.m - 3)
    requires c.m != 2 || c.d < DaysInMonth(c.y, 2)
    ensures var n := NextDay(c);
            var mp' := if n.m <= 2 then n.m + 9 else n.m - 3;
            && (153 * mp' + 2) / 5 + n.d == (153 * mp + 2) / 5 + c.d + 1
            && (if n.m <= 2 then n.y - 1 else n.y) == (if c.m <= 2 then c.y - 1 else c.y)
  {
    if c.d == DaysInMonth(c.y, c.m) { MonthLengths(c.y, mp); }
  }

  lemma SameYearOfEra(era: int, yoe: int, era': int, yoe': int)
    requires 0 <= yoe < 400 && 0 <= yoe' < 400 && era * 400 + yoe == era' * 400 + yoe'
    ensures era == era' && yoe == yoe'
  {
  }

  /** The calendar's next day has exactly the next day number. */
  lemma SuccessorIsNextNumber(c: Civil)
    requires ValidDate(c)
    ensures ValidDate(NextDay(c)) && DaysFromCivil(NextDay(c)) == DaysFromCivil(c) + 1
  {
    NextDayIsValid(c);
    var era, yoe, mp, doy := DaysParts(c);
    var era', yoe', mp', doy' := DaysParts(NextDay(c));
    if c.m == 2 && c.d == DaysInMonth(c.y, 2) {
      NewMarchYear(c, era, yoe, doy);
      assert doy' == 0 by { assert mp' == 0 && (153 * 0 + 2) / 5 == 0; }
      if yoe < 399 {
        NextYearStart(yoe);
        SameYearOfEra(era, yoe + 1, era', yoe');
      } else {
        SameYearOfEra(era + 1, 0, era', yoe');
        assert YearStart(399) + YearLength(399) == 146097 && YearStart(0) == 0;
      }
      hide DaysFromCivil, YearStart, YearLength, IsLeap, ValidDate;
    } else {
      NextDayOfYear(c, mp);
      SameYearOfEra(era, yoe, era', yoe');
      hide DaysFromCivil, YearStart, YearLength, IsLeap, ValidDate, NextDay, DaysInMonth;
      assert doy' == doy + 1;
    }
  }

  // ------------------------------------------------- the count of chrono

  function DaysInYear(y: int): int { if IsLeap(y) then 366 else 365 }

  /** Days from the beginning of year 1 to the beginning of year `y`, negative before it. */
  function DaysBeforeYear(y: int): int
    decreases if y > 1 then y - 1 else 1 - y
  {
    if y == 1 then 0
    else if y > 1 then DaysBeforeYear(y - 1) + DaysInYear(y - 1)
    else DaysBeforeYear(y + 1) - DaysInYear(y)
  }

  function DaysBeforeMonth(y: int, m: int): int
    decreases m
  {
    if m <= 1 then 0 else DaysBeforeMonth(y, m - 1) + DaysInMonth(y, m - 1)
  }

  /** Days of the Common Era, 0001-01-01 being day 1: earlier years, earlier months, the day. */
  function NumDaysFromCe(c: Civil): int {
    DaysBeforeYear(c.y) + DaysBeforeMonth(c.y, c.m) + c.d
  }

  lemma MonthsMakeYear(y: int)
    ensures DaysBeforeMonth(y, 12) + 31 == DaysInYear(y)
  {
    var two, four, six, eight := DaysBeforeMonth(y, 2), DaysBeforeMonth(y, 4), DaysBeforeMonth(y, 6),
      DaysBeforeMonth(y, 8);
    assert two == 31 && four == two + DaysInMonth(y, 2) + 31 && six == four + 61 && eight == six + 61;
    assert DaysBeforeMonth(y, 10) == eight + 61 && DaysBeforeMonth(y, 12) == eight + 122;
  }

  lemma YearStep(y: int)
    ensures DaysBeforeYear(y + 1) == DaysBeforeYear(y) + DaysInYear(y)
  {
  }

  /** The count grows by one along the calendar. */
  lemma NextDayCounts(c: Civil)
    requires ValidDate(c)
    ensures NumDaysFromCe(NextDay(c)) == NumDaysFromCe(c) + 1
  {
    hide DaysBeforeYear, IsLeap;
    if c.d == DaysInMonth(c.y, c.m) {
      if c.m == 12 {
        hide DaysInYear;
        MonthsMakeYear(c.y);
        YearStep(c.y);
      }
    }
  }

  lemma EqualNumberEqualDate(a: Civil, b: Civil)
    requires ValidDate(a) && ValidDate(b) && DaysFromCivil(a) == DaysFromCivil(b)
    ensures a == b
  {
    CivilRoundTrip(a);
    CivilRoundTrip(b);
  }

  /** From each number to the next, in both directions from 0001-01-01. */
  lemma {:induction false} CountOfNumber(z: int)
    ensures NumDaysFromCe(CivilFromDays(z)) == z + 1
    decreases if z < 0 then -z else z
  {
    hide DaysFromCivil, CivilFromDays, NumDaysFromCe, NextDay, ValidDate;
    DaysRoundTrip(z);
    if z == 0 {
      FirstDay();
      EqualNumberEqualDate(CivilFromDays(0), Civil(1, 1, 1));
    } else {
      var before := if z > 0 then z - 1 else z;
      CountOfNumber(if z > 0 then z - 1 else z + 1);
      DaysRoundTrip(before);
      DaysRoundTrip(before + 1);
      SuccessorIsNextNumber(CivilFromDays(before));
      NextDayCounts(CivilFromDays(before));
      EqualNumberEqualDate(NextDay(CivilFromDays(before)), CivilFromDays(before + 1));
    }
  }

  lemma FirstDay()
    ensures ValidDate(Civil(1, 1, 1)) && DaysFromCivil(Civil(1, 1, 1)) == 0 && NumDaysFromCe(Civil(1, 1, 1)) == 1
  {
  }

  /** On every valid date the client's number is one less than the day of the Common Era. */
  lemma OneBelowCommonEra(c: Civil)
    requires ValidDate(c)
    ensures DaysFromCivil(c) + 1 == NumDaysFromCe(c)
  {
    hide DaysFromCivil, CivilFromDays, NumDaysFromCe, ValidDate;
    CivilRoundTrip(c);
    CountOfNumber(DaysFromCivil(c));
  }

  // ------------------------------------------------------- earlier and later

  lemma {:induction false} MonthsGrow(y: int, m: int, n: int)
    requires 1 <= m < n <= 12
    ensures DaysBeforeMonth(y, m) + DaysInMonth(y, m) <= DaysBeforeMonth(y, n)
    decreases n
  {
    hide DaysInMonth;
    if m < n - 1 {
      MonthsGrow(y, m, n - 1);
      MonthHasDays(y, n - 1);
    }
  }

  lemma MonthHasDays(y: int, m: int)
    requires 1 <= m <= 12
    ensures 28 <= DaysInMonth(y, m) && (m == 12 ==> DaysInMonth(y, m) == 31)
  {
  }

  lemma {:induction false} YearsGrow(y: int, z: int)
    requires y < z
    ensures DaysBeforeYear(y) + DaysInYear(y) <= DaysBeforeYear(z)
    decreases z - y
  {
    hide DaysBeforeYear, IsLeap;
    YearStep(z - 1);
    if y < z - 1 { YearsGrow(y, z - 1); }
  }

  /** A year has at most 366 days. */
  lemma {:induction false} YearsBounded(y: int)
    ensures y >= 1 ==> 0 <= DaysBeforeYear(y) <= 366 * (y - 1)
    ensures y < 1 ==> 366 * (y - 1) <= DaysBeforeYear(y) <= 0
    decreases if y > 1 then y - 1 else 1 - y
  {
    if y > 1 { YearsBounded(y - 1); }
    if y < 1 { YearsBounded(y + 1); }
  }

  /** An earlier date, by year, then month, then day, has a smaller count. */
  lemma EarlierCountsLess(a: Civil, b: Civil)
    requires ValidDate(a) && ValidDate(b)
    requires a.y < b.y || (a.y == b.y && (a.m < b.m || (a.m == b.m && a.d < b.d)))
    ensures NumDaysFromCe(a) < NumDaysFromCe(b)
  {
    hide DaysBeforeYear, DaysBeforeMonth, IsLeap, DaysInMonth;
    StartsNotBelow(b.y, b.m);
    if a.y < b.y {
      YearsGrow(a.y, b.y);
      MonthsMakeYear(a.y);
      MonthHasDays(a.y, 12);
      if a.m < 12 { MonthsGrow(a.y, a.m, 12); }
    } else if a.m < b.m {
      MonthsGrow(a.y, a.m, b.m);
    }
  }

  lemma {:induction false} StartsNotBelow(y: int, m: int)
    requires 1 <= m <= 12
    ensures DaysBeforeMonth(y, m) >= 0
    decreases m
  {
    hide DaysInMonth;
    if m > 1 {
      StartsNotBelow(y, m - 1);
      MonthHasDays(y, m - 1);
    }
  }
}
