/** `civil_from_days` (src/ssh.rs) against the Gregorian calendar itself: month lengths
    and leap years as in RFC 3339 (section 5.7 and Appendix C), a day count built from
    them, and the successor of a date. */
module Calendar {

  import opened Prelude

  datatype Date = Date(y: int, m: int, d: int)

  predicate IsLeap(y: int) {
    y % 4 == 0 && (y % 100 != 0 || y % 400 == 0)
  }

  function MonthLength(y: int, m: int): int
    requires 1 <= m <= 12
  {
    if m == 2 then (if IsLeap(y) then 29 else 28)
    else if m == 4 || m == 6 || m == 9 || m == 11 then 30
    else 31
  }

  predicate IsDate(t: Date) {
    1 <= t.m <= 12 && 1 <= t.d <= MonthLength(t.y, t.m)
  }

  function NextDay(t: Date): Date
    requires IsDate(t)
  {
    if t.d < MonthLength(t.y, t.m) then Date(t.y, t.m, t.d + 1)
    else if t.m < 12 then Date(t.y, t.m + 1, 1)
    else Date(t.y + 1, 1, 1)
  }

  /** Leap years among the years before `y`, from year 1 on (negative before it). */
  function LeapsBefore(y: int): int {
    (y - 1) / 4 - (y - 1) / 100 + (y - 1) / 400
  }

  /** Days of year `y` before month `m`. */
  function MonthStart(y: int, m: int): int
    requires 1 <= m <= 13
  {
    if m == 1 then 0 else MonthStart(y, m - 1) + MonthLength(y, m - 1)
  }

  function YearStart(y: int): int {
    365 * (y - 1970) + LeapsBefore(y) - LeapsBefore(1970)
  }

  /** The number of days from 1970-01-01 to `t`. */
  function DayNumber(t: Date): int
    requires 1 <= t.m <= 12
  {
    YearStart(t.y) + MonthStart(t.y, t.m) + t.d - 1
  }

  /** The year of a 400-year era, years counted from March, that day `doe` lies in. */
  function YearOfEra(doe: int): int {
    (doe - doe / 1460 + doe / 36524 - doe / 146096) / 365
  }

  /** Days before year-of-era `yoe`. */
  function EraStart(yoe: int): int {
    365 * yoe + yoe / 4 - yoe / 100
  }

  /** The last step: month and day from the day of a year that starts in March. */
  function MarchDate(y: int, doy: int): Date {
    var mp := (5 * doy + 2) / 153;
    var d := doy - (153 * mp + 2) / 5 + 1;
    var m := if mp < 10 then mp + 3 else mp - 9;
    Date(y + (if m <= 2 then 1 else 0), m, d)
  }

  /** `civil_from_days`, on all of `int`. */
  function CivilFromDays(days: int): Date {
    var z := days + 719468;
    DateInEra(z / 146097, z % 146097)
  }

  function DateInEra(era: int, doe: int): Date {
    var yoe := YearOfEra(doe);
    MarchDate(yoe + era * 400, doe - EraStart(yoe))
  }

  lemma DivStep(y: int, k: int)
    requires k in {4, 100, 400}
    ensures y / k == (y - 1) / k + (if y % k == 0 then 1 else 0)
  {
  }

  lemma LeapStep(y: int)
    ensures LeapsBefore(y + 1) == LeapsBefore(y) + (if IsLeap(y) then 1 else 0)
  {
    DivStep(y, 4);
    DivStep(y, 100);
    DivStep(y, 400);
    Centuries(y);
    FourCenturies(y);
  }

  lemma Centuries(y: int)
    ensures y % 100 == 0 ==> y % 4 == 0
  {
    if y % 100 == 0 {
      assert y == 4 * (25 * (y / 100));
    }
  }

  lemma FourCenturies(y: int)
    ensures y % 400 == 0 ==> y % 100 == 0
  {
    if y % 400 == 0 {
      assert y == 100 * (4 * (y / 400));
    }
  }

  /** The day count's year starts follow the leap rule. */
  lemma YearStartStep(y: int)
    ensures YearStart(y + 1) == YearStart(y) + (if IsLeap(y) then 366 else 365)
    ensures MonthStart(y, 13) == if IsLeap(y) then 366 else 365
  {
    LeapStep(y);
    MonthStarts(y);
  }

  lemma MonthStarts(y: int)
    ensures MonthStart(y, 3) == if IsLeap(y) then 60 else 59
    ensures forall m :: 3 <= m <= 13 ==> MonthStart(y, m) == MonthStart(y, 3) + (153 * (m - 3) + 2) / 5
    ensures MonthStart(y, 1) == 0 && MonthStart(y, 2) == 31
  {
    assert MonthStart(y, 3) == MonthStart(y, 2) + MonthLength(y, 2);
    assert MonthStart(y, 4) == MonthStart(y, 3) + 31;
    assert MonthStart(y, 5) == MonthStart(y, 4) + 30;
    assert MonthStart(y, 6) == MonthStart(y, 5) + 31;
    assert MonthStart(y, 7) == MonthStart(y, 6) + 30;
    assert MonthStart(y, 8) == MonthStart(y, 7) + 31;
    assert MonthStart(y, 9) == MonthStart(y, 8) + 31;
    assert MonthStart(y, 10) == MonthStart(y, 9) + 30;
    assert MonthStart(y, 11) == MonthStart(y, 10) + 31;
    assert MonthStart(y, 12) == MonthStart(y, 11) + 30;
    assert MonthStart(y, 13) == MonthStart(y, 12) + 31;
  }

  /** Counting is exact: the successor of a date has the next number. */
  lemma DayNumberStep(t: Date)
    requires IsDate(t)
    ensures IsDate(NextDay(t)) && DayNumber(NextDay(t)) == DayNumber(t) + 1
  {
    YearStartStep(t.y);
    if t.d == MonthLength(t.y, t.m) {
      assert MonthStart(t.y, t.m + 1) == MonthStart(t.y, t.m) + MonthLength(t.y, t.m);
    }
  }

  /** A day of a 400-year era as century, four-year cycle, year and day. Only the last
      year of a cycle has a 366th day, and only the last century has it every time. */
  predicate Split(doe: int, c: int, a: int, k: int, doy: int) {
    && 0 <= c < 4 && 0 <= a < 25 && 0 <= k < 4 && 0 <= doy <= 365
    && doe == 36524 * c + 1461 * a + 365 * k + doy
    && (doy == 365 ==> k == 3 && (a < 24 || c == 3))
  }

  lemma SplitExists(doe: int) returns (c: int, a: int, k: int, doy: int)
    requires 0 <= doe < 146097
    ensures Split(doe, c, a, k, doy)
  {
    c := if doe == 146096 then 3 else doe / 36524;
    var r := doe - 36524 * c;
    a := r / 1461;
    var b := r % 1461;
    k := if b == 1460 then 3 else b / 365;
    doy := b - 365 * k;
  }

  lemma CenturyTerm(doe: int, c: int, a: int, k: int, doy: int)
    requires Split(doe, c, a, k, doy)
    ensures doe / 36524 - doe / 146096 == c
    ensures 0 <= doe < 146097
  {
    var r := 1461 * a + 365 * k + doy;
    assert doe == 36524 * c + r;
    if r == 36524 {
      assert c == 3 && doe == 146096;
    } else {
      assert 0 <= r < 36524;
    }
  }

  lemma CycleTerm(doe: int, c: int, a: int, k: int, doy: int)
    requires Split(doe, c, a, k, doy)
    ensures var e := doe / 1460 - (25 * c + a); e == 0 || (e == 1 && k == 3 && doy > 0)
  {
    var f := 24 * c + a + 365 * k + doy;
    assert doe == 1460 * (25 * c + a) + f;
    assert 0 <= f <= 96 + 1460;
  }

  /** The division formula names that year. */
  lemma YearOfEraIs(doe: int, c: int, a: int, k: int, doy: int)
    requires Split(doe, c, a, k, doy)
    ensures YearOfEra(doe) == 100 * c + 4 * a + k
    ensures EraStart(100 * c + 4 * a + k) == doe - doy
  {
    CenturyTerm(doe, c, a, k, doy);
    CycleTerm(doe, c, a, k, doy);
    var e := doe / 1460 - (25 * c + a);
    var yoe := 100 * c + 4 * a + k;
    assert doe - doe / 1460 + c == 365 * yoe + (doy - e);
    assert 0 <= doy - e < 365;
    assert yoe / 4 == 25 * c + a;
    assert yoe / 100 == c;
  }

  /** Month and day within a year that starts in March. */
  lemma MonthOfYear(doy: int)
    requires 0 <= doy <= 365
    ensures var mp := (5 * doy + 2) / 153;
            0 <= mp <= 11 && (153 * mp + 2) / 5 <= doy < (153 * (mp + 1) + 2) / 5
  {
  }

  /** The number of the first of March. */
  function MarchStart(y: int): int {
    YearStart(y) + MonthStart(y, 3)
  }

  lemma MarchStartIs(era: int, yoe: int)
    requires 0 <= yoe < 400
    ensures MarchStart(400 * era + yoe) == 146097 * era + EraStart(yoe) - 719468
  {
    var y := 400 * era + yoe;
    YearStartStep(y);
    MonthStarts(y);
    assert y / 4 == 100 * era + yoe / 4;
    assert y / 100 == 4 * era + yoe / 100;
    assert y / 400 == era;
  }

  /** The date `doy` days after the first of March of year `y`. */
  lemma FromMarch(y: int, doy: int)
    requires 0 <= doy <= 365 && (doy == 365 ==> IsLeap(y + 1))
    ensures IsDate(MarchDate(y, doy)) && DayNumber(MarchDate(y, doy)) == MarchStart(y) + doy
  {
    var mp := (5 * doy + 2) / 153;
    MonthOfYear(doy);
    MonthStarts(y);
    MonthStarts(y + 1);
    YearStartStep(y);
    if mp < 10 {
      assert MonthStart(y, mp + 4) == MonthStart(y, mp + 3) + MonthLength(y, mp + 3);
    }
  }

  lemma Mod4(q: int)
    ensures 4 * q % 4 == 0
  {
  }

  lemma Mod100(q: int, r: int)
    requires 0 <= r < 100
    ensures (100 * q + r) % 100 == r
  {
  }

  lemma Mod400(q: int)
    ensures 400 * q % 400 == 0
  {
  }

  lemma LeapAfter(era: int, c: int, a: int)
    requires 0 <= a < 24 || (a == 24 && c == 3)
    requires 0 <= c < 4
    ensures IsLeap(400 * era + 100 * c + 4 * a + 4)
  {
    var y := 400 * era + 100 * c + 4 * a + 4;
    assert y == 4 * (100 * era + 25 * c + a + 1);
    Mod4(100 * era + 25 * c + a + 1);
    if a < 24 {
      assert y == 100 * (4 * era + c) + (4 * a + 4);
      Mod100(4 * era + c, 4 * a + 4);
    } else {
      assert y == 400 * (era + 1);
      Mod400(era + 1);
    }
  }

  lemma LeapDay(era: int, doe: int, c: int, a: int, k: int, doy: int, yoe: int)
    requires Split(doe, c, a, k, doy) && doy == 365 && yoe == 100 * c + 4 * a + k
    ensures IsLeap(400 * era + yoe + 1)
  {
    LeapAfter(era, c, a);
    assert 400 * era + yoe + 1 == 400 * era + 100 * c + 4 * a + 4;
  }

  /** Where a day of an era lies: year of the era, and day of a year from March. */
  lemma YearAndDay(era: int, doe: int) returns (doy: int)
    requires 0 <= doe < 146097
    ensures 0 <= YearOfEra(doe) < 400 && 0 <= doy <= 365 && EraStart(YearOfEra(doe)) == doe - doy
    ensures doy == 365 ==> IsLeap(400 * era + YearOfEra(doe) + 1)
  {
    var c, a, k;
    c, a, k, doy := SplitExists(doe);
    YearOfEraIs(doe, c, a, k, doy);
    if doy == 365 {
      LeapDay(era, doe, c, a, k, doy, YearOfEra(doe));
    }
  }

  lemma EraDay(era: int, doe: int)
    requires 0 <= doe < 146097
    ensures IsDate(DateInEra(era, doe)) && DayNumber(DateInEra(era, doe)) == 146097 * era + doe - 719468
  {
    var doy := YearAndDay(era, doe);
    var yoe := YearOfEra(doe);
    MarchStartIs(era, yoe);
    FromMarch(400 * era + yoe, doy);
    assert yoe + era * 400 == 400 * era + yoe;
  }

  /** Every day number is the number of the date the code gives it, and that date exists. */
  lemma CivilIsRight(days: int)
    ensures IsDate(CivilFromDays(days)) && DayNumber(CivilFromDays(days)) == days
  {
    var z := days + 719468;
    EraDay(z / 146097, z % 146097);
  }

  predicate Before(t: Date, u: Date) {
    t.y < u.y || (t.y == u.y && (t.m < u.m || (t.m == u.m && t.d < u.d)))
  }

  lemma {:induction false} YearStartMonotone(y: int, y': int)
    requires y <= y'
    ensures YearStart(y) <= YearStart(y')
    decreases y' - y
  {
    if y < y' {
      YearStartStep(y);
      YearStartMonotone(y + 1, y');
    }
  }

  lemma {:induction false} MonthStartMonotone(y: int, m: int, m': int)
    requires 1 <= m <= m' <= 13
    ensures MonthStart(y, m) <= MonthStart(y, m')
    decreases m' - m
  {
    if m < m' {
      MonthStartMonotone(y, m, m' - 1);
    }
  }

  /** Counting respects the order of dates. */
  lemma DayNumberOrder(t: Date, u: Date)
    requires IsDate(t) && IsDate(u) && Before(t, u)
    ensures DayNumber(t) < DayNumber(u)
  {
    assert MonthStart(t.y, t.m + 1) == MonthStart(t.y, t.m) + MonthLength(t.y, t.m);
    if t.y < u.y {
      YearStartStep(t.y);
      YearStartMonotone(t.y + 1, u.y);
      MonthStartMonotone(t.y, t.m + 1, 13);
      MonthStartMonotone(u.y, 1, u.m);
    } else if t.m < u.m {
      MonthStartMonotone(t.y, t.m + 1, u.m);
    }
  }

  /** The code inverts the count: every date comes back from its number. */
  lemma CivilInverts(t: Date)
    requires IsDate(t)
    ensures CivilFromDays(DayNumber(t)) == t
  {
    var u := CivilFromDays(DayNumber(t));
    CivilIsRight(DayNumber(t));
    if Before(t, u) {
      DayNumberOrder(t, u);
    } else if Before(u, t) {
      DayNumberOrder(u, t);
    }
  }

  /** Day zero is the first of January 1970. */
  lemma CivilEpoch()
    ensures CivilFromDays(0) == Date(1970, 1, 1)
  {
    CivilInverts(Date(1970, 1, 1));
  }

  lemma NextIs(t: Date, days: int)
    requires IsDate(t) && DayNumber(t) == days
    ensures CivilFromDays(days + 1) == NextDay(t)
  {
    DayNumberStep(t);
    CivilInverts(NextDay(t));
  }

  /** Each next day number is the calendar's next day. */
  lemma CivilFollowsTheCalendar(days: int)
    ensures IsDate(CivilFromDays(days)) && CivilFromDays(days + 1) == NextDay(CivilFromDays(days))
  {
    CivilIsRight(days);
    NextIs(CivilFromDays(days), days);
  }

  /** Dates come out in order. */
  lemma CivilOrder(a: int, b: int)
    ensures Before(CivilFromDays(a), CivilFromDays(b)) <==> a < b
  {
    CivilIsRight(a);
    CivilIsRight(b);
    var t, u := CivilFromDays(a), CivilFromDays(b);
    if Before(t, u) {
      DayNumberOrder(t, u);
    } else if Before(u, t) {
      DayNumberOrder(u, t);
    } else {
      assert t == u;
    }
  }

  // ---- Machine integers ----

  newtype Int64 = x: int | -0x8000_0000_0000_0000 <= x < 0x8000_0000_0000_0000

  newtype UInt32 = x: int | 0 <= x < 0x1_0000_0000

  lemma EraRange(doe: int)
    requires 0 <= doe < 146097
    ensures 0 <= YearOfEra(doe) < 400 && 0 <= doe - EraStart(YearOfEra(doe)) <= 365
  {
    var doy := YearAndDay(0, doe);
  }

  /** The year of the era on machine integers: every operation is checked to stay in range. */
  function YearOfEra64(doe: Int64): (yoe: Int64)
    requires 0 <= doe < 146097
    ensures yoe as int == YearOfEra(doe as int)
  {
    EraRange(doe as int);
    (doe - doe / 1460 + doe / 36524 - doe / 146096) / 365
  }

  function DayOfYear64(doe: Int64, yoe: Int64): (doy: Int64)
    requires 0 <= doe < 146097 && 0 <= yoe < 400
    ensures doy as int == doe as int - EraStart(yoe as int)
  {
    doe - (365 * yoe + yoe / 4 - yoe / 100)
  }

  function MarchDate64(y: Int64, doy: Int64): (r: (Int64, UInt32, UInt32))
    requires 0 <= doy <= 365 && y < 0x7fff_ffff_ffff_ffff
    ensures Date(r.0 as int, r.1 as int, r.2 as int) == MarchDate(y as int, doy as int)
  {
    MonthOfYear(doy as int);
    var mp := (5 * doy + 2) / 153;
    var d := (doy - (153 * mp + 2) / 5 + 1) as UInt32;
    var m := (if mp < 10 then mp + 3 else mp - 9) as UInt32;
    (y + (if m <= 2 then 1 else 0), m, d)
  }

  function DateInEra64(era: Int64, doe: Int64): (r: (Int64, UInt32, UInt32))
    requires 0 <= doe < 146097 && -0x4000_0000_0000 <= era <= 0x4000_0000_0000
    ensures Date(r.0 as int, r.1 as int, r.2 as int) == DateInEra(era as int, doe as int)
  {
    EraRange(doe as int);
    var yoe := YearOfEra64(doe);
    MarchDate64(yoe + era * 400, DayOfYear64(doe, yoe))
  }

  lemma EraBounds(z: Int64)
    ensures -0x4000_0000_0000 <= z / 146097 <= 0x4000_0000_0000
  {
  }

  /** `civil_from_days` on the code's own machine integers. It overflows in its first
      addition or not at all, and otherwise gives the date it gives on all of `int`. */
  function CivilFromDays64(days: Int64): (r: Option<(Int64, UInt32, UInt32)>)
    ensures r.None? <==> days as int + 719468 >= 0x8000_0000_0000_0000
    ensures r.Some? ==> Date(r.value.0 as int, r.value.1 as int, r.value.2 as int) == CivilFromDays(days as int)
  {
    if days > 0x7fff_ffff_ffff_ffff - 719468 then None
    else
      var z := days + 719468;
      EraBounds(z);
      Some(DateInEra64(z / 146097, z % 146097))
  }
}
