/** The expiry stamp `utc_yyyymmddhhmm` (src/ssh.rs): what it looks like, that it can
    be read back, and that comparing stamps as strings compares instants. */
module Stamp {
  import opened Prelude
  import opened Calendar

  function Digit(d: int): char
    requires 0 <= d < 10
  {
    '0' + d as char
  }

  predicate IsDigits(s: string) {
    forall i :: 0 <= i < |s| ==> '0' <= s[i] <= '9'
  }

  function Decimal(n: nat): string {
    if n < 10 then [Digit(n)] else Decimal(n / 10) + [Digit(n % 10)]
  }

  /** At least `width` digits, zero-padded on the left, as Rust's `{:0width}`. */
  function Padded(n: nat, width: nat): string {
    if width == 0 then (if n == 0 then "" else Decimal(n))
    else Padded(n / 10, width - 1) + [Digit(n % 10)]
  }

  function StampDate(t: Date, hh: nat, mm: nat): string
    requires t.y >= 0 && t.m >= 0 && t.d >= 0
  {
    Join(Padded(t.y, 4), Padded(t.m, 2), Padded(t.d, 2), Padded(hh, 2), Padded(mm, 2))
  }

  function Join(y: string, m: string, d: string, hh: string, mm: string): string {
    y + m + d + hh + mm + "Z"
  }

  /** `utc_yyyymmddhhmm`: an instant before 1970 counts as 1970. */
  function Utc(secs: int): string {
    var s := if secs < 0 then 0 else secs;
    var t := CivilFromDays(s / 86400);
    CivilIsRight(s / 86400);
    SinceEpoch(s / 86400);
    StampDate(t, Hour(s), Minute(s))
  }

  function Hour(secs: nat): (hh: nat)
    ensures hh < 24
  {
    secs % 86400 / 3600
  }

  function Minute(secs: nat): (mm: nat)
    ensures mm < 60
  {
    secs % 86400 % 3600 / 60
  }

  lemma SinceEpoch(days: nat)
    ensures CivilFromDays(days).y >= 1970
  {
    CivilEpoch();
    CivilOrder(days, 0);
    CivilOrder(0, days);
  }

  // ---- Reading a stamp back ----

  function Value(s: string): nat {
    if s == "" then 0 else Value(s[..|s| - 1]) * 10 + DigitOf(s[|s| - 1])
  }

  function DigitOf(c: char): nat {
    if '0' <= c <= '9' then (c - '0') as int else 0
  }

  /** The second an expiry stamp names, if it is well formed. */
  function Parse(s: string): Option<int> {
    if |s| != 13 || !IsDigits(s[..12]) || s[12] != 'Z' then None
    else FromFields(Date(Value(s[..4]), Value(s[4..6]), Value(s[6..8])), Value(s[8..10]), Value(s[10..12]))
  }

  function FromFields(t: Date, hh: nat, mm: nat): Option<int> {
    if IsDate(t) && hh < 24 && mm < 60 then Some(DayNumber(t) * 86400 + hh * 3600 + mm * 60) else None
  }

  function Pow10(k: nat): (p: nat)
    ensures p >= 1
  {
    if k == 0 then 1 else 10 * Pow10(k - 1)
  }

  lemma OneMore(s: string, d: int)
    requires 0 <= d < 10
    ensures Value(s + [Digit(d)]) == Value(s) * 10 + d
    ensures IsDigits(s) ==> IsDigits(s + [Digit(d)])
  {
    assert (s + [Digit(d)])[..|s|] == s;
  }

  lemma {:induction false} DecimalIs(n: nat)
    ensures IsDigits(Decimal(n)) && Value(Decimal(n)) == n && |Decimal(n)| >= 1
  {
    if n < 10 {
      OneMore("", n);
      assert "" + [Digit(n)] == [Digit(n)];
    } else {
      DecimalIs(n / 10);
      OneMore(Decimal(n / 10), n % 10);
    }
  }

  lemma {:induction false} PaddedIs(n: nat, width: nat)
    ensures IsDigits(Padded(n, width)) && Value(Padded(n, width)) == n
  {
    if width == 0 {
      DecimalIs(n);
    } else {
      var q, d := n / 10, n % 10;
      PaddedIs(q, width - 1);
      OneMore(Padded(q, width - 1), d);
      assert Value(Padded(n, width)) == q * 10 + d;
    }
  }

  lemma {:induction false} PaddedWidth(n: nat, width: nat)
    ensures |Padded(n, width)| >= width
    ensures |Padded(n, width)| == width <==> n < Pow10(width)
  {
    if width == 0 {
      DecimalIs(n);
    } else {
      PaddedWidth(n / 10, width - 1);
    }
  }

  predicate OnTheClock(t: Date, hh: int, mm: int) {
    IsDate(t) && 0 <= t.y && 0 <= hh < 24 && 0 <= mm < 60
  }

  lemma TwoDigits(n: nat)
    requires n < 100
    ensures |Padded(n, 2)| == 2 && IsDigits(Padded(n, 2)) && Value(Padded(n, 2)) == n
  {
    PaddedIs(n, 2);
    PaddedWidth(n, 2);
    assert Pow10(2) == 10 * Pow10(1) == 10 * (10 * Pow10(0));
  }

  /** Month, day, hour and minute as two digits each. */
  lemma ClockDigits(t: Date, hh: int, mm: int)
    requires OnTheClock(t, hh, mm)
    ensures |Padded(t.m, 2)| == 2 && IsDigits(Padded(t.m, 2))
    ensures |Padded(t.d, 2)| == 2 && IsDigits(Padded(t.d, 2))
    ensures |Padded(hh, 2)| == 2 && IsDigits(Padded(hh, 2))
    ensures |Padded(mm, 2)| == 2 && IsDigits(Padded(mm, 2))
  {
    TwoDigits(t.m);
    TwoDigits(t.d);
    TwoDigits(hh);
    TwoDigits(mm);
  }

  lemma ClockValues(t: Date, hh: int, mm: int)
    requires OnTheClock(t, hh, mm)
    ensures Value(Padded(t.m, 2)) == t.m && Value(Padded(t.d, 2)) == t.d
    ensures Value(Padded(hh, 2)) == hh && Value(Padded(mm, 2)) == mm
  {
    PaddedIs(t.m, 2);
    PaddedIs(t.d, 2);
    PaddedIs(hh, 2);
    PaddedIs(mm, 2);
  }

  lemma YearDigits(y: nat)
    ensures |Padded(y, 4)| >= 4 && IsDigits(Padded(y, 4)) && Value(Padded(y, 4)) == y
    ensures |Padded(y, 4)| == 4 <==> y < 10000
  {
    PaddedIs(y, 4);
    PaddedWidth(y, 4);
    assert Pow10(4) == 10 * Pow10(3) == 10 * (10 * Pow10(2));
    assert Pow10(2) == 10 * Pow10(1) == 10 * (10 * Pow10(0));
  }

  /** Where the fields of a stamp are. */
  lemma Layout(a: string, b: string, c: string, d: string, e: string)
    requires |b| == |c| == |d| == |e| == 2
    ensures var s, k := Join(a, b, c, d, e), |a|;
            && |s| == k + 9 && s[..k] == a && s[k..k + 2] == b && s[k + 2..k + 4] == c
            && s[k + 4..k + 6] == d && s[k + 6..k + 8] == e && s[k + 8] == 'Z'
  {
  }

  lemma JoinDigits(a: string, b: string, c: string, d: string, e: string)
    requires |b| == |c| == |d| == |e| == 2 && |a| == 4
    requires IsDigits(a) && IsDigits(b) && IsDigits(c) && IsDigits(d) && IsDigits(e)
    ensures var s := Join(a, b, c, d, e); |s| == 13 && IsDigits(s[..12]) && s[12] == 'Z'
  {
    assert Join(a, b, c, d, e)[..12] == a + b + c + d + e;
  }

  /** Twelve digits and a `Z` up to the year 9999, and one digit more from then on. */
  lemma StampShape(t: Date, hh: int, mm: int)
    requires OnTheClock(t, hh, mm)
    ensures |StampDate(t, hh, mm)| == 13 <==> t.y < 10000
    ensures t.y < 10000 ==> IsDigits(StampDate(t, hh, mm)[..12]) && StampDate(t, hh, mm)[12] == 'Z'
  {
    YearDigits(t.y);
    ClockDigits(t, hh, mm);
    var y, m, d, h, n := Padded(t.y, 4), Padded(t.m, 2), Padded(t.d, 2), Padded(hh, 2), Padded(mm, 2);
    assert StampDate(t, hh, mm) == Join(y, m, d, h, n);
    if t.y < 10000 {
      JoinDigits(y, m, d, h, n);
    }
  }

  /** Reading a stamp made of two-digit fields after a four-digit year. */
  lemma ParseJoin(a: string, b: string, c: string, d: string, e: string)
    requires |a| == 4 && |b| == |c| == |d| == |e| == 2
    requires IsDigits(a) && IsDigits(b) && IsDigits(c) && IsDigits(d) && IsDigits(e)
    ensures Parse(Join(a, b, c, d, e)) == FromFields(Date(Value(a), Value(b), Value(c)), Value(d), Value(e))
  {
    JoinDigits(a, b, c, d, e);
    Layout(a, b, c, d, e);
  }

  /** The same, for fields that spell a given date and time of day. */
  lemma ParseFields(a: string, b: string, c: string, d: string, e: string, t: Date, hh: nat, mm: nat)
    requires |a| == 4 && |b| == |c| == |d| == |e| == 2
    requires IsDigits(a) && IsDigits(b) && IsDigits(c) && IsDigits(d) && IsDigits(e)
    requires t == Date(Value(a), Value(b), Value(c)) && hh == Value(d) && mm == Value(e)
    ensures Parse(Join(a, b, c, d, e)) == FromFields(t, hh, mm)
  {
    ParseJoin(a, b, c, d, e);
  }

  lemma ParseStamp(t: Date, hh: int, mm: int)
    requires OnTheClock(t, hh, mm) && t.y < 10000
    ensures Parse(StampDate(t, hh, mm)) == FromFields(t, hh, mm)
  {
    YearDigits(t.y);
    ClockDigits(t, hh, mm);
    ClockValues(t, hh, mm);
    ParseFields(Padded(t.y, 4), Padded(t.m, 2), Padded(t.d, 2), Padded(hh, 2), Padded(mm, 2), t, hh, mm);
  }

  lemma FieldsGive(t: Date, hh: int, mm: int)
    requires OnTheClock(t, hh, mm)
    ensures FromFields(t, hh, mm) == Some(DayNumber(t) * 86400 + hh * 3600 + mm * 60)
  {
  }

  lemma ParseDate(t: Date, hh: int, mm: int)
    requires OnTheClock(t, hh, mm) && t.y < 10000
    ensures Parse(StampDate(t, hh, mm)) == Some(DayNumber(t) * 86400 + hh * 3600 + mm * 60)
  {
    ParseStamp(t, hh, mm);
    FieldsGive(t, hh, mm);
  }

  const YEAR_10000: int := 253402300800

  lemma Year10000(t: Date)
    requires IsDate(t)
    ensures t.y < 10000 <==> DayNumber(t) < 2932897
  {
    var u := Date(10000, 1, 1);
    assert DayNumber(u) == 2932897;
    if Before(t, u) {
      DayNumberOrder(t, u);
    } else if t != u {
      DayNumberOrder(u, t);
    }
  }

  /** The date part of an instant at or after the epoch. */
  lemma DatePart(secs: nat)
    ensures var t := CivilFromDays(secs / 86400);
            && IsDate(t) && 0 <= t.y && DayNumber(t) == secs / 86400
            && (t.y < 10000 <==> secs < YEAR_10000)
  {
    CivilIsRight(secs / 86400);
    SinceEpoch(secs / 86400);
    Year10000(CivilFromDays(secs / 86400));
  }

  lemma Rounding(secs: nat)
    ensures secs / 86400 * 86400 + Hour(secs) * 3600 + Minute(secs) * 60 == secs / 60 * 60
  {
    var rem := secs % 86400;
    assert secs == 86400 * (secs / 86400) + rem;
    assert rem == 3600 * (rem / 3600) + rem % 3600;
    assert rem % 3600 == 60 * (rem % 3600 / 60) + rem % 3600 % 60;
    var q := 1440 * (secs / 86400) + 60 * (rem / 3600) + rem % 3600 / 60;
    assert secs == 60 * q + rem % 3600 % 60;
    assert secs / 60 == q;
  }

  /** Twelve digits and a `Z`, exactly for the instants before the year 10000. */
  lemma UtcShape(secs: int)
    ensures |Utc(secs)| == 13 <==> secs < YEAR_10000
    ensures secs < YEAR_10000 ==> IsDigits(Utc(secs)[..12]) && Utc(secs)[12] == 'Z'
  {
    var s := if secs < 0 then 0 else secs;
    DatePart(s);
    StampShape(CivilFromDays(s / 86400), Hour(s), Minute(s));
  }

  lemma ParseAt(t: Date, secs: nat)
    requires IsDate(t) && 0 <= t.y < 10000 && DayNumber(t) == secs / 86400
    ensures Parse(StampDate(t, Hour(secs), Minute(secs))) == Some(secs / 60 * 60)
  {
    ParseDate(t, Hour(secs), Minute(secs));
    Rounding(secs);
  }

  /** A stamp reads back as its instant rounded down to the minute. */
  lemma UtcRoundTrip(secs: nat)
    requires secs < YEAR_10000
    ensures Parse(Utc(secs)) == Some(secs / 60 * 60)
  {
    DatePart(secs);
    var t := CivilFromDays(secs / 86400);
    ParseAt(t, secs);
    assert Utc(secs) == StampDate(t, Hour(secs), Minute(secs));
  }

  /** An instant before 1970 is stamped as the epoch. */
  lemma UtcBeforeEpoch(secs: int)
    requires secs < 0
    ensures Utc(secs) == Utc(0) && Parse(Utc(secs)) == Some(0)
  {
    assert Utc(secs) == Utc(0);
    UtcRoundTrip(0);
  }

  // ---- String order ----

  predicate LexLess(s: string, t: string) {
    t != "" && (s == "" || s[0] < t[0] || (s[0] == t[0] && LexLess(s[1..], t[1..])))
  }

  lemma {:induction false} ValueFront(s: string)
    requires IsDigits(s)
    ensures Value(s) < Pow10(|s|)
    ensures s != "" ==> Value(s) == DigitOf(s[0]) * Pow10(|s| - 1) + Value(s[1..])
  {
    if |s| > 1 {
      var init, last := s[..|s| - 1], DigitOf(s[|s| - 1]);
      ValueFront(init);
      assert s[1..][..|s| - 2] == init[1..];
      assert Value(s[1..]) == Value(init[1..]) * 10 + last;
      Shift(DigitOf(s[0]), Pow10(|s| - 2), Value(init[1..]));
    } else if |s| == 1 {
      assert s[..0] == "" && s[1..] == "";
    }
  }

  lemma Shift(d: nat, p: nat, v: nat)
    ensures (d * p + v) * 10 == d * (10 * p) + v * 10
  {
  }

  /** Digit strings of one length compare as the numbers they spell. */
  lemma {:induction false} LexIsNumeric(s: string, t: string)
    requires IsDigits(s) && IsDigits(t) && |s| == |t|
    ensures LexLess(s, t) <==> Value(s) < Value(t)
  {
    if s != "" {
      ValueFront(s);
      ValueFront(t);
      ValueFront(s[1..]);
      ValueFront(t[1..]);
      var p := Pow10(|s| - 1);
      if s[0] == t[0] {
        LexIsNumeric(s[1..], t[1..]);
      } else if s[0] < t[0] {
        DigitWins(DigitOf(s[0]), DigitOf(t[0]), p, Value(s[1..]), Value(t[1..]));
      } else {
        DigitWins(DigitOf(t[0]), DigitOf(s[0]), p, Value(t[1..]), Value(s[1..]));
      }
    }
  }

  lemma DigitWins(a: nat, b: nat, p: nat, x: nat, y: nat)
    requires a < b && x < p
    ensures a * p + x < b * p + y
  {
    assert (a + 1) * p <= b * p;
  }

  lemma {:induction false} LexTail(s: string, t: string, c: char)
    requires |s| == |t|
    ensures LexLess(s + [c], t + [c]) <==> LexLess(s, t)
  {
    if s != "" {
      LexTail(s[1..], t[1..], c);
      assert (s + [c])[1..] == s[1..] + [c];
      assert (t + [c])[1..] == t[1..] + [c];
    } else {
      assert !LexLess("", "");
    }
  }

  lemma AppendTwo(s: string, n: nat)
    requires n < 100
    ensures Value(s + Padded(n, 2)) == Value(s) * 100 + n
  {
    var a, b := n / 10, n % 10;
    assert Padded(n, 2) == [Digit(a), Digit(b)] by {
      assert Padded(a, 1) == Padded(0, 0) + [Digit(a)];
    }
    OneMore(s, a);
    OneMore(s + [Digit(a)], b);
    assert s + Padded(n, 2) == s + [Digit(a)] + [Digit(b)];
  }

  /** The twelve digits read as one number. */
  function Key(t: Date, hh: int, mm: int): int {
    (((t.y * 100 + t.m) * 100 + t.d) * 100 + hh) * 100 + mm
  }

  lemma StampKey(t: Date, hh: int, mm: int)
    requires OnTheClock(t, hh, mm) && t.y < 10000
    ensures var s := StampDate(t, hh, mm);
            |s| == 13 && IsDigits(s[..12]) && s == s[..12] + "Z" && Value(s[..12]) == Key(t, hh, mm)
  {
    StampShape(t, hh, mm);
    YearDigits(t.y);
    var y := Padded(t.y, 4);
    AppendTwo(y, t.m);
    AppendTwo(y + Padded(t.m, 2), t.d);
    AppendTwo(y + Padded(t.m, 2) + Padded(t.d, 2), hh);
    AppendTwo(y + Padded(t.m, 2) + Padded(t.d, 2) + Padded(hh, 2), mm);
    var digits := y + Padded(t.m, 2) + Padded(t.d, 2) + Padded(hh, 2) + Padded(mm, 2);
    assert StampDate(t, hh, mm) == digits + "Z";
    assert StampDate(t, hh, mm)[..12] == digits;
  }

  lemma KeyOrder(t: Date, hh: int, mm: int, u: Date, hh': int, mm': int)
    requires OnTheClock(t, hh, mm) && OnTheClock(u, hh', mm')
    ensures Key(t, hh, mm) < Key(u, hh', mm')
            <==> DayNumber(t) * 1440 + hh * 60 + mm < DayNumber(u) * 1440 + hh' * 60 + mm'
  {
    if Before(t, u) {
      DayNumberOrder(t, u);
    } else if Before(u, t) {
      DayNumberOrder(u, t);
    } else {
      assert t == u;
    }
  }

  lemma StampOrder(t: Date, a: nat, u: Date, b: nat)
    requires IsDate(t) && 0 <= t.y < 10000 && DayNumber(t) == a / 86400
    requires IsDate(u) && 0 <= u.y < 10000 && DayNumber(u) == b / 86400
    ensures LexLess(StampDate(t, Hour(a), Minute(a)), StampDate(u, Hour(b), Minute(b))) <==> a / 60 < b / 60
  {
    StampKey(t, Hour(a), Minute(a));
    StampKey(u, Hour(b), Minute(b));
    var s, r := StampDate(t, Hour(a), Minute(a)), StampDate(u, Hour(b), Minute(b));
    LexTail(s[..12], r[..12], 'Z');
    LexIsNumeric(s[..12], r[..12]);
    KeyOrder(t, Hour(a), Minute(a), u, Hour(b), Minute(b));
    Rounding(a);
    Rounding(b);
  }

  /** Up to the year 9999, comparing stamps as strings compares instants by the minute. */
  lemma UtcOrder(a: nat, b: nat)
    requires a < YEAR_10000 && b < YEAR_10000
    ensures LexLess(Utc(a), Utc(b)) <==> a / 60 < b / 60
  {
    DatePart(a);
    DatePart(b);
    var t, u := CivilFromDays(a / 86400), CivilFromDays(b / 86400);
    StampOrder(t, a, u, b);
    assert Utc(a) == StampDate(t, Hour(a), Minute(a));
    assert Utc(b) == StampDate(u, Hour(b), Minute(b));
  }

  /** No instant the clock can hold makes the date arithmetic overflow: a stamp's date is
      the one computed on machine integers. */
  lemma StampNeverOverflows(secs: nat)
    requires secs < 0x1_0000_0000_0000_0000
    ensures secs / 86400 < 0x8000_0000_0000_0000
    ensures var r := CivilFromDays64((secs / 86400) as Int64);
            r.Some? && Date(r.value.0 as int, r.value.1 as int, r.value.2 as int) == CivilFromDays(secs / 86400)
  {
    var days := (secs / 86400) as Int64;
    assert days as int + 719468 < 0x8000_0000_0000_0000;
  }
}
