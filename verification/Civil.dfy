/** The proleptic Gregorian calendar (`time.rs`): day numbers and dates, over all
    integers. Division in the source truncates toward zero. */
module Civil {

  datatype Date = Date(year: int, month: int, day: int)

  function TruncDiv(a: int, b: int): int
    requires b > 0
  {
    if a >= 0 then a / b else -((-a) / b)
  }

  // ---------------------------------------------------------------- the two conversions

  function DaysFromCivil(t: Date): int
  {
    var y := if t.month <= 2 then t.year - 1 else t.year;
    var era := TruncDiv(if y >= 0 then y else y - 399, 400);
    var yoe := y - era * 400;
    var mp := (t.month + 9) % 12;
    var doy := (153 * mp + 2) / 5 + t.day - 1;
    var doe := yoe * 365 + yoe / 4 - yoe / 100 + doy;
    era * 146097 + doe - 719468
  }

  function CivilFromDays(day: int): Date
  {
    var z := day + 719468;
    var era := TruncDiv(if z >= 0 then z else z - 146096, 146097);
    DateInEra(era, z - era * 146097)
  }

  /** The date of day `doe` of an era of 400 years. */
  function DateInEra(era: int, doe: int): Date
  {
    var yoe := YearOfEra(doe);
    var y := yoe + era * 400;
    var doy := doe - (365 * yoe + yoe / 4 - yoe / 100);
    var mp := (5 * doy + 2) / 153;
    var d := doy - (153 * mp + 2) / 5 + 1;
    var m := if mp < 10 then mp + 3 else mp - 9;
    Date(if m <= 2 then y + 1 else y, m, d)
  }

  function YearOfEra(doe: int): int
  {
    (doe - doe / 1460 + doe / 36524 - doe / 146096) / 365
  }

  // ---------------------------------------------------------------- the calendar itself

  predicate Leap(y: int)
  {
    y % 4 == 0 && (y % 100 != 0 || y % 400 == 0)
  }

  function MonthLength(y: int, m: int): int
  {
    if m == 2 then (if Leap(y) then 29 else 28)
    else if m == 4 || m == 6 || m == 9 || m == 11 then 30
    else 31
  }

  predicate Valid(t: Date)
  {
    1 <= t.month <= 12 && 1 <= t.day <= MonthLength(t.year, t.month)
  }

  function Successor(t: Date): Date
  {
    if t.day < MonthLength(t.year, t.month) then t.(day := t.day + 1)
    else if t.month < 12 then Date(t.year, t.month + 1, 1)
    else Date(t.year + 1, 1, 1)
  }

  // ---------------------------------------------------------------- years that start in March

  /** Days before the first of March of year `y`, counted from the first of March of
      year 0. */
  function YearStart(y: int): int
  {
    365 * y + y / 4 - y / 100 + y / 400
  }

  function MarchYear(t: Date): int
  {
    if t.month <= 2 then t.year - 1 else t.year
  }

  function MonthPos(t: Date): int
  {
    (t.month + 9) % 12
  }

  function MonthStart(mp: int): int
  {
    (153 * mp + 2) / 5
  }

  lemma FloorYears(y: int)
    ensures TruncDiv(if y >= 0 then y else y - 399, 400) == y / 400
  {
    var q, r := y / 400, y % 400;
    assert y == 400 * q + r;
    assert y < 0 ==> -(y - 399) == 400 * (-q) + (399 - r);
  }

  lemma FloorDays(z: int)
    ensures TruncDiv(if z >= 0 then z else z - 146096, 146097) == z / 146097
  {
    var q, r := z / 146097, z % 146097;
    assert z == 146097 * q + r;
    assert z < 0 ==> -(z - 146096) == 146097 * (-q) + (146096 - r);
  }

  lemma EraSplit(y: int)
    ensures var e := y / 400; var r := y - e * 400;
            0 <= r < 400 && YearStart(y) == e * 146097 + (365 * r + r / 4 - r / 100)
  {
    var e := y / 400;
    var r := y - e * 400;
    assert y / 4 == 100 * e + r / 4;
    assert y / 100 == 4 * e + r / 100;
  }

  /** The day number is where the March-based year starts, plus the month, plus the
      day. */
  lemma DaysAre(t: Date)
    ensures DaysFromCivil(t) == YearStart(MarchYear(t)) + MonthStart(MonthPos(t)) + t.day - 1 - 719468
  {
    var y := MarchYear(t);
    FloorYears(y);
    EraSplit(y);
  }

  lemma Step4(y: int)
    ensures (y + 1) / 4 == y / 4 + if (y + 1) % 4 == 0 then 1 else 0
  {
  }

  lemma Step100(y: int)
    ensures (y + 1) / 100 == y / 100 + if (y + 1) % 100 == 0 then 1 else 0
  {
  }

  lemma Step400(y: int)
    ensures (y + 1) / 400 == y / 400 + if (y + 1) % 400 == 0 then 1 else 0
  {
  }

  lemma CenturiesAreFourths(n: int)
    ensures (n % 400 == 0 ==> n % 100 == 0) && (n % 100 == 0 ==> n % 4 == 0)
  {
    var q := n / 100;
    assert n % 100 == 0 ==> n == 4 * (25 * q);
    var p := n / 400;
    assert n % 400 == 0 ==> n == 100 * (4 * p);
  }

  /** Each March-based year is 365 days, or 366 when the year it ends in is leap. */
  lemma YearLength(y: int)
    ensures YearStart(y + 1) == YearStart(y) + if Leap(y + 1) then 366 else 365
  {
    Step4(y);
    Step100(y);
    Step400(y);
    CenturiesAreFourths(y + 1);
  }

  // ---------------------------------------------------------------- successor dates

  lemma MonthStarts()
    ensures MonthStart(0) == 0 && MonthStart(1) == 31 && MonthStart(2) == 61 && MonthStart(3) == 92
    ensures MonthStart(4) == 122 && MonthStart(5) == 153 && MonthStart(6) == 184 && MonthStart(7) == 214
    ensures MonthStart(8) == 245 && MonthStart(9) == 275 && MonthStart(10) == 306 && MonthStart(11) == 337
  {
  }

  /** Where the month starts in a March-based year. */
  function Offset(m: int): int
  {
    if m == 3 then 0 else if m == 4 then 31 else if m == 5 then 61 else if m == 6 then 92
    else if m == 7 then 122 else if m == 8 then 153 else if m == 9 then 184 else if m == 10 then 214
    else if m == 11 then 245 else if m == 12 then 275 else if m == 1 then 306 else 337
  }

  lemma OffsetIs(m: int)
    requires 1 <= m <= 12
    ensures MonthStart((m + 9) % 12) == Offset(m)
  {
    MonthStarts();
    assert (m + 9) % 12 == if m <= 2 then m + 9 else m - 3;
  }

  /** The day number in a form with no division left but in `YearStart`. */
  lemma DaysIn(y: int, m: int, d: int)
    requires 1 <= m <= 12
    ensures DaysFromCivil(Date(y, m, d)) == YearStart(if m <= 2 then y - 1 else y) + Offset(m) + d - 1 - 719468
  {
    DaysAre(Date(y, m, d));
    OffsetIs(m);
  }

  /** The same from the numbers alone. */
  lemma MonthStep(y: int, m: int, before: int, start: int)
    requires 1 <= m <= 12 && start == before + if Leap(y) then 366 else 365
    ensures var here := (if m <= 2 then before else start) + Offset(m);
            var there := (if m == 1 then before else start) + Offset(if m < 12 then m + 1 else 1);
            there == here + MonthLength(y, m)
  {
  }

  lemma NextMonth(y: int, m: int)
    requires 1 <= m <= 12
    ensures DaysFromCivil(if m < 12 then Date(y, m + 1, 1) else Date(y + 1, 1, 1))
         == DaysFromCivil(Date(y, m, 1)) + MonthLength(y, m)
  {
    var before, start := YearStart(y - 1), YearStart(y);
    assert start == before + if Leap(y) then 366 else 365 by {
      YearLength(y - 1);
    }
    MonthStep(y, m, before, start);
    assert DaysFromCivil(Date(y, m, 1)) == (if m <= 2 then before else start) + Offset(m) - 719468 by {
      DaysIn(y, m, 1);
    }
    if m < 12 {
      DaysIn(y, m + 1, 1);
    } else {
      DaysIn(y + 1, 1, 1);
    }
  }

  lemma SameMonth(y: int, m: int, d: int)
    requires 1 <= m <= 12
    ensures DaysFromCivil(Date(y, m, d)) == DaysFromCivil(Date(y, m, 1)) + d - 1
  {
    DaysIn(y, m, d);
    DaysIn(y, m, 1);
  }

  lemma NextDay(y: int, m: int, d: int)
    requires 1 <= m <= 12
    ensures DaysFromCivil(Date(y, m, d + 1)) == DaysFromCivil(Date(y, m, d)) + 1
  {
    DaysIn(y, m, d);
    DaysIn(y, m, d + 1);
  }

  /** Consecutive dates have consecutive day numbers. */
  lemma SuccessorIsNext(t: Date)
    requires Valid(t)
    ensures Valid(Successor(t)) && DaysFromCivil(Successor(t)) == DaysFromCivil(t) + 1
  {
    if t.day < MonthLength(t.year, t.month) {
      NextDay(t.year, t.month, t.day);
    } else {
      SameMonth(t.year, t.month, t.day);
      NextMonth(t.year, t.month);
    }
  }

  lemma Epoch()
    ensures DaysFromCivil(Date(1970, 1, 1)) == 0
  {
  }

  // ---------------------------------------------------------------- every day number is a date

  lemma LeapPeriod(y: int)
    ensures Leap(y) == Leap(y - 400) && YearStart(y - 400) == YearStart(y) - 146097
  {
    assert (y - 400) % 4 == y % 4 && (y - 400) % 100 == y % 100 && (y - 400) % 400 == y % 400;
    assert (y - 400) / 4 == y / 4 - 100 && (y - 400) / 100 == y / 100 - 4 && (y - 400) / 400 == y / 400 - 1;
  }

  lemma CalendarPeriod(t: Date)
    requires Valid(t)
    ensures var s := Date(t.year - 400, t.month, t.day); Valid(s) && DaysFromCivil(s) == DaysFromCivil(t) - 146097
  {
    LeapPeriod(t.year);
    LeapPeriod(MarchYear(t));
    DaysIn(t.year, t.month, t.day);
    DaysIn(t.year - 400, t.month, t.day);
  }

  /** Some date has any given day number. */
  lemma {:induction false} DateFor(z: int) returns (t: Date)
    ensures Valid(t) && DaysFromCivil(t) == z
    decreases if z >= 0 then z else 146097 - z
  {
    if z == 0 {
      t := Date(1970, 1, 1);
      Epoch();
    } else if z > 0 {
      var p := DateFor(z - 1);
      SuccessorIsNext(p);
      t := Successor(p);
    } else {
      var p := DateFor(z + 146097);
      CalendarPeriod(p);
      t := Date(p.year - 400, p.month, p.day);
    }
  }

  // ---------------------------------------------------------------- the way back

  function EraStart(yoe: int): int
  {
    365 * yoe + yoe / 4 - yoe / 100
  }

  /** The year of an era that starts in March and has a 366th day. */
  predicate LongYear(yoe: int)
  {
    (yoe + 1) % 4 == 0 && ((yoe + 1) % 100 != 0 || yoe == 399)
  }

  lemma Centuries(c: int, e: int, doe: int)
    requires 0 <= c <= 3 && doe == 36524 * c + e && 0 <= e && (e < 36524 || (c == 3 && e == 36524))
    ensures doe / 36524 - doe / 146096 == c
  {
  }

  lemma Quarters(c: int, q: int, x: int, doe: int)
    requires 0 <= c <= 3 && 0 <= q <= 24 && doe == 36524 * c + 1461 * q + x && 0 <= x <= 1460
    ensures var t := 24 * c + q + x; doe / 1460 == 25 * c + q + if t >= 1460 then 1 else 0
  {
    var t := 24 * c + q + x;
    assert doe == 1460 * (25 * c + q) + t;
    assert t < 2 * 1460;
  }

  /** The correction in `YearOfEra` is right on every day of an era. */
  lemma YearFound(c: int, q: int, r: int, doy: int)
    requires 0 <= c <= 3 && 0 <= q <= 24 && 0 <= r <= 3 && 0 <= doy <= 365
    requires doy == 365 ==> r == 3 && (q < 24 || c == 3)
    ensures YearOfEra(36524 * c + 1461 * q + 365 * r + doy) == 100 * c + 4 * q + r
  {
    var x := 365 * r + doy;
    var doe := 36524 * c + 1461 * q + x;
    Centuries(c, 1461 * q + x, doe);
    Quarters(c, q, x, doe);
    var b := if 24 * c + q + x >= 1460 then 1 else 0;
    assert doe - doe / 1460 + doe / 36524 - doe / 146096 == 365 * (100 * c + 4 * q + r) + (doy - b);
  }

  lemma YearRecovered(yoe: int, doy: int)
    requires 0 <= yoe < 400 && 0 <= doy <= 365 && (doy == 365 ==> LongYear(yoe))
    ensures YearOfEra(EraStart(yoe) + doy) == yoe && 0 <= EraStart(yoe) + doy < 146097
  {
    var c := yoe / 100;
    var q := (yoe - 100 * c) / 4;
    var r := yoe - 100 * c - 4 * q;
    YearFound(c, q, r, doy);
    assert yoe / 4 == 25 * c + q;
    assert EraStart(yoe) == 36524 * c + 1461 * q + 365 * r;
  }

  function LongestLength(m: int): int
  {
    if m == 2 then 29 else if m == 4 || m == 6 || m == 9 || m == 11 then 30 else 31
  }

  lemma MonthRecovered(m: int, d: int)
    requires 1 <= m <= 12 && 1 <= d <= LongestLength(m)
    ensures var doy := Offset(m) + d - 1; var mp := (5 * doy + 2) / 153;
            && mp == (if m <= 2 then m + 9 else m - 3) && (153 * mp + 2) / 5 == Offset(m)
  {
    MonthStarts();
  }

  lemma Mod4(e: int, r: int)
    ensures (400 * e + r) % 4 == r % 4
  {
    assert 400 * e + r == 4 * (100 * e + r / 4) + r % 4;
  }

  lemma Mod100(e: int, r: int)
    ensures (400 * e + r) % 100 == r % 100
  {
    assert 400 * e + r == 100 * (4 * e + r / 100) + r % 100;
  }

  lemma Mod400(e: int, r: int)
    ensures (400 * e + r) % 400 == r % 400
  {
    assert 400 * e + r == 400 * (e + r / 400) + r % 400;
  }

  lemma LongIsLeap(e: int, yoe: int)
    requires 0 <= yoe < 400
    ensures LongYear(yoe) == Leap(400 * e + yoe + 1)
  {
    Mod4(e, yoe + 1);
    Mod100(e, yoe + 1);
    Mod400(e, yoe + 1);
  }

  lemma EraOf(e: int, doe: int)
    requires 0 <= doe < 146097
    ensures (e * 146097 + doe) / 146097 == e
  {
  }

  /** A day of a date within its era. */
  lemma Located(t: Date) returns (e: int, yoe: int, doy: int)
    requires Valid(t)
    ensures MarchYear(t) == 400 * e + yoe && 0 <= yoe < 400
    ensures doy == Offset(t.month) + t.day - 1 && 0 <= doy <= 365 && (doy == 365 ==> LongYear(yoe))
    ensures DaysFromCivil(t) == e * 146097 + EraStart(yoe) + doy - 719468
  {
    var y := MarchYear(t);
    e := y / 400;
    yoe := y - e * 400;
    doy := Offset(t.month) + t.day - 1;
    DaysIn(t.year, t.month, t.day);
    EraSplit(y);
    LongIsLeap(e, yoe);
  }

  /** What `CivilFromDays` makes of it. */
  lemma InEra(n: int, e: int, doe: int)
    requires 0 <= doe < 146097 && n == e * 146097 + doe - 719468
    ensures CivilFromDays(n) == DateInEra(e, doe)
  {
    FloorDays(n + 719468);
    EraOf(e, doe);
  }

  lemma DateAt(e: int, yoe: int, doy: int)
    requires 0 <= yoe < 400 && 0 <= doy <= 365 && (doy == 365 ==> LongYear(yoe))
    ensures var mp := (5 * doy + 2) / 153; var m := if mp < 10 then mp + 3 else mp - 9;
            DateInEra(e, EraStart(yoe) + doy)
            == Date(yoe + e * 400 + (if m <= 2 then 1 else 0), m, doy - (153 * mp + 2) / 5 + 1)
  {
    YearRecovered(yoe, doy);
  }

  lemma DateOf(e: int, yoe: int, m: int, d: int, off: int, doy: int)
    requires 0 <= yoe < 400 && 1 <= m <= 12 && doy == off + d - 1 && 0 <= doy <= 365 && (doy == 365 ==> LongYear(yoe))
    requires var mp := (5 * doy + 2) / 153; mp == (if m <= 2 then m + 9 else m - 3) && (153 * mp + 2) / 5 == off
    ensures DateInEra(e, EraStart(yoe) + doy) == Date(400 * e + yoe + (if m <= 2 then 1 else 0), m, d)
  {
    DateAt(e, yoe, doy);
  }

  lemma EraRange(yoe: int, doy: int)
    requires 0 <= yoe < 400 && 0 <= doy <= 365 && (doy == 365 ==> LongYear(yoe))
    ensures 0 <= EraStart(yoe) + doy < 146097
  {
    YearRecovered(yoe, doy);
  }

  lemma DateOfMonth(e: int, yoe: int, doy: int, t: Date)
    requires Valid(t) && MarchYear(t) == 400 * e + yoe && 0 <= yoe < 400
    requires doy == Offset(t.month) + t.day - 1 && 0 <= doy <= 365 && (doy == 365 ==> LongYear(yoe))
    ensures DateInEra(e, EraStart(yoe) + doy) == t
  {
    MonthRecovered(t.month, t.day);
    DateOf(e, yoe, t.month, t.day, Offset(t.month), doy);
  }

  lemma DateOfNumber(e: int, yoe: int, doy: int, t: Date, n: int)
    requires Valid(t) && MarchYear(t) == 400 * e + yoe && 0 <= yoe < 400
    requires doy == Offset(t.month) + t.day - 1 && 0 <= doy <= 365 && (doy == 365 ==> LongYear(yoe))
    requires n == e * 146097 + EraStart(yoe) + doy - 719468
    ensures CivilFromDays(n) == t
  {
    EraRange(yoe, doy);
    InEra(n, e, EraStart(yoe) + doy);
    DateOfMonth(e, yoe, doy, t);
  }

  /** Reading a date back from its day number gives the date. */
  lemma CivilOfDays(t: Date)
    requires Valid(t)
    ensures CivilFromDays(DaysFromCivil(t)) == t
  {
    var e, yoe, doy := Located(t);
    DateOfNumber(e, yoe, doy, t, DaysFromCivil(t));
  }

  /** And the other way round, for every day number there is. */
  lemma DaysOfCivil(z: int)
    ensures Valid(CivilFromDays(z)) && DaysFromCivil(CivilFromDays(z)) == z
  {
    var t := DateFor(z);
    CivilOfDays(t);
  }

  lemma CivilOfNumber(t: Date, n: int)
    requires Valid(t) && DaysFromCivil(t) == n
    ensures CivilFromDays(n) == t
  {
    CivilOfDays(t);
  }

  lemma SuccessorOf(t: Date, n: int) returns (s: Date)
    requires Valid(t) && DaysFromCivil(t) == n
    ensures s == Successor(t) && Valid(s) && DaysFromCivil(s) == n + 1
  {
    SuccessorIsNext(t);
    s := Successor(t);
  }

  /** Dates and day numbers are in one-to-one correspondence, day after day. */
  lemma ConsecutiveDays(z: int)
    ensures CivilFromDays(z + 1) == Successor(CivilFromDays(z))
  {
    var t := DateFor(z);
    CivilOfNumber(t, z);
    var s := SuccessorOf(t, z);
    CivilOfNumber(s, z + 1);
  }

  // ---------------------------------------------------------------- broken-down time

  datatype Tm = Tm(date: Date, hour: int, min: int, sec: int, weekday: int, yday: int)

  /** 0 is Sunday. */
  function Weekday(days: int): int
  {
    (days + 4) % 7
  }

  function FromUnix(t: int): Tm
  {
    var days := t / 86400;
    var rem := t % 86400;
    var date := CivilFromDays(days);
    Tm(date, rem / 3600, rem % 3600 / 60, rem % 60, Weekday(days), days - DaysFromCivil(Date(date.year, 1, 1)))
  }

  /** Days of a year before a month. */
  function DaysBefore(y: int, m: int): int
    decreases m
  {
    if m <= 1 then 0 else DaysBefore(y, m - 1) + MonthLength(y, m - 1)
  }

  lemma {:induction false} OffsetBefore(y: int, m: int)
    requires 1 <= m <= 12
    ensures Offset(m) + (if m <= 2 then 0 else if Leap(y) then 366 else 365) == Offset(1) + DaysBefore(y, m)
    decreases m
  {
    if m > 1 {
      OffsetBefore(y, m - 1);
    }
  }

  lemma DaysBeforeIs(y: int, m: int)
    requires 1 <= m <= 12
    ensures DaysFromCivil(Date(y, m, 1)) == DaysFromCivil(Date(y, 1, 1)) + DaysBefore(y, m)
  {
    OffsetBefore(y, m);
    YearLength(y - 1);
    DaysIn(y, m, 1);
    DaysIn(y, 1, 1);
  }

  lemma DaysBeforeRange(y: int, m: int, d: int)
    requires 1 <= m <= 12 && 1 <= d <= MonthLength(y, m)
    ensures 0 <= DaysBefore(y, m) + d - 1 <= (if Leap(y) then 365 else 364)
  {
    assert DaysBefore(y, 2) == 31;
    assert DaysBefore(y, 4) == DaysBefore(y, 2) + MonthLength(y, 2) + 31;
    assert DaysBefore(y, 6) == DaysBefore(y, 4) + 61;
    assert DaysBefore(y, 8) == DaysBefore(y, 6) + 61;
    assert DaysBefore(y, 10) == DaysBefore(y, 8) + 61;
    assert DaysBefore(y, 12) == DaysBefore(y, 10) + 61;
  }

  /** The fields of a broken-down time are in range, recombine to the second they
      came from, and the day of the year counts the months before and the day. */
  lemma FromUnixRecombines(t: int)
    ensures var tm := FromUnix(t);
            && Valid(tm.date) && 0 <= tm.hour < 24 && 0 <= tm.min < 60 && 0 <= tm.sec < 60
            && t == 86400 * DaysFromCivil(tm.date) + 3600 * tm.hour + 60 * tm.min + tm.sec
            && tm.yday == DaysBefore(tm.date.year, tm.date.month) + tm.date.day - 1
            && 0 <= tm.yday <= (if Leap(tm.date.year) then 365 else 364)
  {
    var days := t / 86400;
    var date := CivilFromDays(days);
    DaysOfCivil(days);
    YearDay(date, days);
    ClockFields(t);
  }

  lemma YearDay(date: Date, days: int)
    requires Valid(date) && DaysFromCivil(date) == days
    ensures var n := days - DaysFromCivil(Date(date.year, 1, 1));
            n == DaysBefore(date.year, date.month) + date.day - 1 && 0 <= n <= (if Leap(date.year) then 365 else 364)
  {
    SameMonth(date.year, date.month, date.day);
    DaysBeforeIs(date.year, date.month);
    DaysBeforeRange(date.year, date.month, date.day);
  }

  lemma ClockFields(t: int)
    ensures var rem := t % 86400; var h, m, s := rem / 3600, rem % 3600 / 60, rem % 60;
            0 <= h < 24 && 0 <= m < 60 && 0 <= s < 60 && t == 86400 * (t / 86400) + 3600 * h + 60 * m + s
  {
    var rem := t % 86400;
    assert rem == 3600 * (rem / 3600) + rem % 3600;
    var x := rem % 3600;
    assert x == 60 * (x / 60) + x % 60;
    assert x % 60 == rem % 60;
  }

  /** Weekdays follow each other, and the epoch was a Thursday. */
  lemma Weekdays(days: int)
    ensures Weekday(days + 1) == (Weekday(days) + 1) % 7 && Weekday(0) == 4
  {
  }

  lemma DayLater(t: int)
    ensures (t + 86400) / 86400 == t / 86400 + 1
    ensures 0 <= t < 86400 ==> t / 86400 == 0
  {
  }

  lemma WeekdayFor(days: int, n: int)
    requires n == days
    ensures 0 <= Weekday(days) < 7 && (n + 4 - Weekday(days)) % 7 == 0
  {
  }

  /** The weekday of a second follows its date: Thursday on the first day of 1970, and one
      weekday on with each day of the calendar, before the epoch as after it. */
  lemma FromUnixWeekday(t: int)
    ensures 0 <= FromUnix(t).weekday < 7
    ensures (DaysFromCivil(FromUnix(t).date) + 4 - FromUnix(t).weekday) % 7 == 0
    ensures FromUnix(t + 86400).weekday == (FromUnix(t).weekday + 1) % 7
    ensures 0 <= t < 86400 ==> FromUnix(t).weekday == 4
  {
    var days := t / 86400;
    DayLater(t);
    Weekdays(days);
    DaysOfCivil(days);
    WeekdayFor(days, DaysFromCivil(CivilFromDays(days)));
  }
}
