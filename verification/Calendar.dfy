/** Decimal digits and the byte-wise order in which SQLite compares text. */
module Text {
  predicate IsDigit(ch: char) { '0' <= ch <= '9' }

  function DigitChar(d: nat): (ch: char)
    requires d < 10
    ensures IsDigit(ch) && DigitValue(ch) == d
  {
    '0' + d as char
  }

  function DigitValue(ch: char): nat
    requires IsDigit(ch)
  {
    (ch - '0') as nat
  }

  predicate AllDigits(s: string) { forall i :: 0 <= i < |s| ==> IsDigit(s[i]) }

  function Pow10(w: nat): nat { if w == 0 then 1 else 10 * Pow10(w - 1) }

  /** The last `w` decimal digits of n, zero padded. */
  function Digits(n: nat, w: nat): (s: string)
    ensures |s| == w && AllDigits(s)
  {
    if w == 0 then "" else Digits(n / 10, w - 1) + [DigitChar(n % 10)]
  }

  function ReadNat(s: string): nat
    requires AllDigits(s)
  {
    if s == "" then 0 else 10 * ReadNat(s[..|s| - 1]) + DigitValue(s[|s| - 1])
  }

  lemma {:induction false} ReadDigits(n: nat, w: nat)
    requires n < Pow10(w)
    ensures ReadNat(Digits(n, w)) == n
  {
    if w == 0 {
    } else {
      ReadDigits(n / 10, w - 1);
      var s := Digits(n, w);
      assert s[..|s| - 1] == Digits(n / 10, w - 1);
    }
  }

  /** memcmp order: the first differing character decides, and a proper prefix comes first. */
  predicate Precedes(a: string, b: string) {
    if b == "" then false
    else if a == "" then true
    else a[0] < b[0] || (a[0] == b[0] && Precedes(a[1..], b[1..]))
  }

  lemma {:induction false} PrecedesIrreflexive(a: string)
    ensures !Precedes(a, a)
  {
    if a == "" {
    } else {
      PrecedesIrreflexive(a[1..]);
    }
  }

  lemma {:induction false} PrecedesConcat(a: string, b: string, x: string, y: string)
    requires |a| == |b|
    ensures Precedes(a + x, b + y) <==> Precedes(a, b) || (a == b && Precedes(x, y))
  {
    if a == "" {
      assert a + x == x && b + y == y;
    } else {
      assert (a + x)[1..] == a[1..] + x && (b + y)[1..] == b[1..] + y;
      PrecedesConcat(a[1..], b[1..], x, y);
      assert a == [a[0]] + a[1..] && b == [b[0]] + b[1..];
    }
  }

  /** b is longer and starts with a, or the first characters that differ decide. */
  lemma {:induction false} PrecedesMeans(a: string, b: string)
    ensures Precedes(a, b) <==>
            || a < b
            || exists k :: 0 <= k < |a| && k < |b| && a[..k] == b[..k] && a[k] < b[k]
  {
    if a == "" || b == "" {
    } else {
      PrecedesMeans(a[1..], b[1..]);
      if Precedes(a, b) && a[0] < b[0] { assert a[..0] == b[..0]; }
      if k :| 0 <= k < |a| - 1 && k < |b| - 1 && a[1..][..k] == b[1..][..k] && a[1..][k] < b[1..][k] {
        if a[0] == b[0] {
          assert a[..k + 1] == [a[0]] + a[1..][..k] && b[..k + 1] == [b[0]] + b[1..][..k];
          assert a[..k + 1] == b[..k + 1] && a[k + 1] < b[k + 1];
        }
      }
      if k :| 0 <= k < |a| && k < |b| && a[..k] == b[..k] && a[k] < b[k] {
        if k > 0 {
          assert a[0] == a[..k][0] && b[0] == b[..k][0];
          assert a[1..][..k - 1] == a[..k][1..] && b[1..][..k - 1] == b[..k][1..];
          assert a[1..][k - 1] < b[1..][k - 1];
        }
      }
    }
  }

  lemma PrecedesDigit(d: nat, e: nat)
    requires d < 10 && e < 10
    ensures Precedes([DigitChar(d)], [DigitChar(e)]) <==> d < e
  {
  }

  /** Zero-padded numbers of one width sort as text exactly as they sort as numbers. */
  lemma {:induction false} PrecedesDigits(n: nat, m: nat, w: nat)
    requires n < Pow10(w) && m < Pow10(w)
    ensures Precedes(Digits(n, w), Digits(m, w)) <==> n < m
    ensures Digits(n, w) == Digits(m, w) <==> n == m
  {
    ReadDigits(n, w);
    ReadDigits(m, w);
    hide ReadNat;
    if w == 0 {
    } else {
      PrecedesDigits(n / 10, m / 10, w - 1);
      PrecedesConcat(Digits(n / 10, w - 1), Digits(m / 10, w - 1), [DigitChar(n % 10)], [DigitChar(m % 10)]);
      PrecedesDigit(n % 10, m % 10);
      hide Precedes;
    }
  }
}

/**
 UTC calendar arithmetic: the time stamps "%Y-%m-%dT%H:%M:%SZ" that the key expiry (C library)
 and the updated_at and audit columns (SQLite) use, as proleptic Gregorian dates of the years
 0000 to 9999, and times as seconds since 1970.
 */
module Calendar {
  import opened Types
  import opened Text

  const SECONDS_PER_DAY := 86400
  const MIN_TIME: int := -62167219200  // 0000-01-01T00:00:00Z
  const MAX_TIME: int := 253402300800  // 10000-01-01T00:00:00Z

  type Time = t: int | MIN_TIME <= t < MAX_TIME witness 0

  datatype Civil = Civil(year: nat, month: nat, day: nat, hour: nat, minute: nat, second: nat)

  predicate IsLeap(y: nat) { y % 4 == 0 && (y % 100 != 0 || y % 400 == 0) }

  function DaysInYear(y: nat): nat { if IsLeap(y) then 366 else 365 }

  /** Days from 0000-01-01 to the first day of year y. */
  function DaysBeforeYear(y: nat): nat {
    365 * y + (y + 3) / 4 - (y + 99) / 100 + (y + 399) / 400
  }

  lemma Every4(y: nat)
    ensures (y + 4) / 4 - (y + 3) / 4 == if y % 4 == 0 then 1 else 0
  {
  }

  lemma Every100(y: nat)
    ensures (y + 100) / 100 - (y + 99) / 100 == if y % 100 == 0 then 1 else 0
    ensures y % 100 == 0 ==> y % 4 == 0
  {
    var q, r := y / 100, y % 100;
    assert y == 100 * q + r;
    assert (y + 100) / 100 == q + 1;
    assert (y + 99) / 100 == if r == 0 then q else q + 1;
    assert r == 0 ==> y == 4 * (25 * q);
  }

  lemma Every400(y: nat)
    ensures (y + 400) / 400 - (y + 399) / 400 == if y % 400 == 0 then 1 else 0
    ensures y % 400 == 0 ==> y % 100 == 0
  {
    var q, r := y / 400, y % 400;
    assert y == 400 * q + r;
    assert (y + 400) / 400 == q + 1;
    assert (y + 399) / 400 == if r == 0 then q else q + 1;
    assert r == 0 ==> y == 100 * (4 * q);
  }

  lemma NextYear(y: nat)
    ensures DaysBeforeYear(y + 1) == DaysBeforeYear(y) + DaysInYear(y)
  {
    Every4(y);
    Every100(y);
    Every400(y);
  }

  function DaysInMonth(y: nat, m: nat): nat {
    if m == 2 then (if IsLeap(y) then 29 else 28)
    else if m == 4 || m == 6 || m == 9 || m == 11 then 30
    else 31
  }

  /** Days from the first day of year y to the first day of its month m; month 13 is the next year. */
  function DaysBeforeMonth(y: nat, m: nat): nat
    requires 1 <= m <= 13
  {
    if m == 1 then 0 else DaysBeforeMonth(y, m - 1) + DaysInMonth(y, m - 1)
  }

  predicate ValidCivil(c: Civil) {
    && c.year < 10000
    && 1 <= c.month <= 12
    && 1 <= c.day <= DaysInMonth(c.year, c.month)
    && c.hour < 24 && c.minute < 60 && c.second < 60
  }

  /** timegm: the seconds since 1970 of a broken-down time; a day past the month's end rolls over. */
  function TimeGm(c: Civil): int
    requires 1 <= c.month <= 12 && 1 <= c.day
  {
    MIN_TIME
    + (DaysBeforeYear(c.year) + DaysBeforeMonth(c.year, c.month) + c.day - 1) * SECONDS_PER_DAY
    + c.hour * 3600 + c.minute * 60 + c.second
  }

  function YearFrom(y: nat, days: nat): (r: nat)
    requires DaysBeforeYear(y) <= days
    ensures DaysBeforeYear(r) <= days < DaysBeforeYear(r) + DaysInYear(r)
    decreases days - DaysBeforeYear(y)
  {
    NextYear(y);
    if days < DaysBeforeYear(y + 1) then y else YearFrom(y + 1, days)
  }

  function MonthFrom(y: nat, m: nat, days: nat): (r: nat)
    requires 1 <= m <= 12 && DaysBeforeMonth(y, m) <= days < DaysBeforeMonth(y, 13)
    ensures 1 <= r <= 12
    ensures DaysBeforeMonth(y, r) <= days < DaysBeforeMonth(y, r) + DaysInMonth(y, r)
    decreases 12 - m
  {
    if days < DaysBeforeMonth(y, m + 1) then m else MonthFrom(y, m + 1, days)
  }

  lemma TwelveMonths(y: nat)
    ensures DaysBeforeMonth(y, 13) == DaysInYear(y)
  {
    var feb := DaysInMonth(y, 2);
    assert DaysBeforeMonth(y, 2) == 31 && DaysBeforeMonth(y, 3) == 31 + feb;
    assert DaysBeforeMonth(y, 4) == 62 + feb;
    assert DaysBeforeMonth(y, 5) == 92 + feb;
    assert DaysBeforeMonth(y, 6) == 123 + feb;
    assert DaysBeforeMonth(y, 7) == 153 + feb;
    assert DaysBeforeMonth(y, 8) == 184 + feb;
    assert DaysBeforeMonth(y, 9) == 215 + feb;
    assert DaysBeforeMonth(y, 10) == 245 + feb;
    assert DaysBeforeMonth(y, 11) == 276 + feb;
    assert DaysBeforeMonth(y, 12) == 306 + feb;
  }

  /** gmtime_r */
  function GmTime(t: Time): Civil {
    var days := (t - MIN_TIME) / SECONDS_PER_DAY;
    var rest := (t - MIN_TIME) % SECONDS_PER_DAY;
    var year := YearFrom(0, days);
    var inYear := days - DaysBeforeYear(year);
    TwelveMonths(year);
    var month := MonthFrom(year, 1, inYear);
    Civil(year, month, inYear - DaysBeforeMonth(year, month) + 1, rest / 3600, rest % 3600 / 60, rest % 60)
  }

  lemma {:induction false} YearsAscend(y: nat, z: nat)
    requires y < z
    ensures DaysBeforeYear(y) + DaysInYear(y) <= DaysBeforeYear(z)
    decreases z
  {
    NextYear(z - 1);
    if y < z - 1 { YearsAscend(y, z - 1); }
  }

  lemma {:induction false} MonthsAscend(y: nat, m: nat, n: nat)
    requires 1 <= m < n <= 13
    ensures DaysBeforeMonth(y, m) + DaysInMonth(y, m) <= DaysBeforeMonth(y, n)
  {
    if m < n - 1 { MonthsAscend(y, m, n - 1); }
  }

  /** Every time of the years 0000 to 9999 has a valid date, and that date denotes the time. */
  lemma GmTimeInverse(t: Time)
    ensures ValidCivil(GmTime(t))
    ensures TimeGm(GmTime(t)) == t
  {
  }

  /** Dates compare field by field, the year first. */
  predicate Earlier(a: Civil, b: Civil) {
    || a.year < b.year
    || (a.year == b.year && (|| a.month < b.month
                             || (a.month == b.month && (|| a.day < b.day
                                                        || (a.day == b.day && EarlierInDay(a, b))))))
  }

  predicate EarlierInDay(a: Civil, b: Civil) {
    || a.hour < b.hour
    || (a.hour == b.hour && (a.minute < b.minute || (a.minute == b.minute && a.second < b.second)))
  }

  function DayNumber(c: Civil): int
    requires 1 <= c.month <= 12
  {
    DaysBeforeYear(c.year) + DaysBeforeMonth(c.year, c.month) + c.day - 1
  }

  lemma DayNumberMonotone(a: Civil, b: Civil)
    requires ValidCivil(a) && ValidCivil(b)
    requires a.year < b.year || (a.year == b.year && (a.month < b.month || (a.month == b.month && a.day < b.day)))
    ensures DayNumber(a) < DayNumber(b)
  {
    if a.year < b.year {
      YearsAscend(a.year, b.year);
      TwelveMonths(a.year);
      MonthsAscend(a.year, a.month, 13);
    } else if a.month < b.month {
      MonthsAscend(a.year, a.month, b.month);
    }
  }

  lemma TimeGmMonotone(a: Civil, b: Civil)
    requires ValidCivil(a) && ValidCivil(b)
    requires Earlier(a, b)
    ensures TimeGm(a) < TimeGm(b)
  {
    if a.year != b.year || a.month != b.month || a.day != b.day {
      DayNumberMonotone(a, b);
    }
  }

  /** strftime "%Y-%m-%dT%H:%M:%SZ" */
  function Format(t: Time): string {
    FormatCivil(GmTime(t))
  }

  function FormatCivil(c: Civil): (s: string)
    ensures |s| == 20
  {
    Digits(c.year, 4) + ("-" + (Digits(c.month, 2) + ("-" + (Digits(c.day, 2) + ("T" + FormatClock(c))))))
  }

  function FormatClock(c: Civil): (s: string)
    ensures |s| == 9
  {
    Digits(c.hour, 2) + (":" + (Digits(c.minute, 2) + (":" + (Digits(c.second, 2) + "Z"))))
  }

  /** strptime with the same pattern, then timegm. Whatever follows the Z is ignored. */
  function Parse(s: string): Option<int> {
    if && |s| >= 20
       && AllDigits(s[0..4]) && s[4] == '-' && AllDigits(s[5..7]) && s[7] == '-' && AllDigits(s[8..10])
       && s[10] == 'T' && AllDigits(s[11..13]) && s[13] == ':' && AllDigits(s[14..16])
       && s[16] == ':' && AllDigits(s[17..19]) && s[19] == 'Z'
    then
      var c := Civil(ReadNat(s[0..4]), ReadNat(s[5..7]), ReadNat(s[8..10]),
                     ReadNat(s[11..13]), ReadNat(s[14..16]), ReadNat(s[17..19]));
      if 1 <= c.month <= 12 && 1 <= c.day <= 31 && c.hour <= 23 && c.minute <= 59 && c.second <= 61
      then Some(TimeGm(c)) else None
    else None
  }

  lemma FormatFields(c: Civil)
    ensures var s := FormatCivil(c);
      && s[0..4] == Digits(c.year, 4) && s[4] == '-' && s[5..7] == Digits(c.month, 2) && s[7] == '-'
      && s[8..10] == Digits(c.day, 2) && s[10] == 'T'
      && s[11..] == FormatClock(c)
  {
  }

  lemma ClockFields(c: Civil)
    ensures var s := FormatClock(c);
      && s[0..2] == Digits(c.hour, 2) && s[2] == ':' && s[3..5] == Digits(c.minute, 2) && s[5] == ':'
      && s[6..8] == Digits(c.second, 2) && s[8] == 'Z'
  {
  }

  /** Formatting a time and parsing the result gives the time back. */
  lemma ParseFormat(t: Time)
    ensures Parse(Format(t)) == Some(t)
  {
    GmTimeInverse(t);
    var c := GmTime(t);
    ParseFormatCivil(c);
  }

  /** Decimal digits that stand for n. */
  predicate IsNumber(s: string, n: nat) { AllDigits(s) && ReadNat(s) == n }

  lemma CivilLayout(c: Civil)
    requires ValidCivil(c)
    ensures var s := FormatCivil(c);
      && |s| == 20 && s[4] == '-' && s[7] == '-' && s[10] == 'T' && s[13] == ':' && s[16] == ':' && s[19] == 'Z'
      && IsNumber(s[0..4], c.year) && IsNumber(s[5..7], c.month) && IsNumber(s[8..10], c.day)
      && IsNumber(s[11..13], c.hour) && IsNumber(s[14..16], c.minute) && IsNumber(s[17..19], c.second)
  {
    var s, clock := FormatCivil(c), FormatClock(c);
    FormatFields(c);
    ClockFields(c);
    hide FormatCivil;
    hide FormatClock;
    hide Digits;
    hide ReadNat;
    hide TimeGm;
    assert s[11..13] == clock[0..2] && s[13] == clock[2] && s[14..16] == clock[3..5] && s[16] == clock[5];
    assert s[17..19] == clock[6..8] && s[19] == clock[8];
    assert Pow10(2) == 100 && Pow10(4) == 10000;
    ReadDigits(c.year, 4);
    ReadDigits(c.month, 2);
    ReadDigits(c.day, 2);
    ReadDigits(c.hour, 2);
    ReadDigits(c.minute, 2);
    ReadDigits(c.second, 2);
    hide Pow10;
  }

  lemma ParseFormatCivil(c: Civil)
    requires ValidCivil(c)
    ensures Parse(FormatCivil(c)) == Some(TimeGm(c))
  {
    CivilLayout(c);
    hide FormatCivil;
    hide TimeGm;
    hide ReadNat;
  }

  // ---- the calendar written out ----

  /** Thirty days has September, April, June and November. */
  function LastDay(year: nat, month: nat): nat {
    match month
    case 2 => if year % 4 == 0 && (year % 100 != 0 || year % 400 == 0) then 29 else 28
    case 4 => 30
    case 6 => 30
    case 9 => 30
    case 11 => 30
    case _ => 31
  }

  function DayAfter(c: Civil): Civil {
    if c.day < LastDay(c.year, c.month) then c.(day := c.day + 1)
    else if c.month < 12 then c.(month := c.month + 1, day := 1)
    else c.(year := c.year + 1, month := 1, day := 1)
  }

  function SecondAfter(c: Civil): Civil {
    if c.second < 59 then c.(second := c.second + 1)
    else if c.minute < 59 then c.(minute := c.minute + 1, second := 0)
    else if c.hour < 23 then c.(hour := c.hour + 1, minute := 0, second := 0)
    else DayAfter(c.(hour := 0, minute := 0, second := 0))
  }

  /** A date denotes one time only. */
  lemma GmTimeIs(c: Civil, t: Time)
    requires ValidCivil(c) && TimeGm(c) == t
    ensures GmTime(t) == c
  {
    GmTimeInverse(t);
    var d := GmTime(t);
    hide GmTime;
    hide TimeGm;
    if d != c {
      if Earlier(c, d) { TimeGmMonotone(c, d); } else { TimeGmMonotone(d, c); }
    }
  }

  lemma YearsUpTo(y: nat)
    requires DaysBeforeYear(y) < DaysBeforeYear(10000)
    ensures y < 10000
  {
    if y > 10000 { YearsAscend(10000, y); }
  }

  lemma TomorrowIsADayLater(c: Civil, t: Time)
    requires ValidCivil(c) && TimeGm(c) == t && t + SECONDS_PER_DAY < MAX_TIME
    ensures ValidCivil(DayAfter(c)) && TimeGm(DayAfter(c)) == t + SECONDS_PER_DAY
  {
    MonthEnds(c.year, c.month);
    hide LastDay;
    hide IsLeap;
    if c.day == DaysInMonth(c.year, c.month) && c.month == 12 {
      NextYear(c.year);
      TwelveMonths(c.year);
      YearsUpTo(c.year + 1);
    }
  }

  lemma MonthEnds(y: nat, m: nat)
    requires 1 <= m <= 12
    ensures LastDay(y, m) == DaysInMonth(y, m)
  {
  }

  /** The calendar from its epoch: 1970 begins at time 0. */
  lemma Epoch()
    ensures GmTime(0) == Civil(1970, 1, 1, 0, 0, 0)
    ensures GmTime(-62167219200) == Civil(0, 1, 1, 0, 0, 0)
  {
    GmTimeIs(Civil(1970, 1, 1, 0, 0, 0), 0);
    GmTimeIs(Civil(0, 1, 1, 0, 0, 0), -62167219200);
  }

  /** 86400 seconds later it is the next day at the same hour. */
  lemma DayByDay(t: Time)
    requires t + SECONDS_PER_DAY < MAX_TIME
    ensures GmTime(t + 86400) == DayAfter(GmTime(t))
  {
    GmTimeInverse(t);
    TomorrowIsADayLater(GmTime(t), t);
    GmTimeIs(DayAfter(GmTime(t)), t + SECONDS_PER_DAY);
    hide GmTime;
    hide TimeGm;
  }

  lemma SecondIsLater(c: Civil, t: Time)
    requires ValidCivil(c) && TimeGm(c) == t && t + 1 < MAX_TIME
    ensures ValidCivil(SecondAfter(c)) && TimeGm(SecondAfter(c)) == t + 1
  {
    hide DaysInMonth;
    hide DaysBeforeMonth;
    hide DaysBeforeYear;
    hide DayAfter;
    if c.hour == 23 && c.minute == 59 && c.second == 59 {
      TomorrowIsADayLater(c.(hour := 0, minute := 0, second := 0), t + 1 - SECONDS_PER_DAY);
    }
  }

  /** And a second later it is the next second. */
  lemma SecondBySecond(t: Time)
    requires t + 1 < MAX_TIME
    ensures GmTime(t + 1) == SecondAfter(GmTime(t))
  {
    GmTimeInverse(t);
    SecondIsLater(GmTime(t), t);
    GmTimeIs(SecondAfter(GmTime(t)), t + 1);
    hide GmTime;
    hide TimeGm;
    hide SecondAfter;
  }

  /** The text of a time stamp, character by character. */
  lemma StampLayout(t: Time)
    ensures var s, c := Format(t), GmTime(t);
      && |s| == 20 && s[4] == '-' && s[7] == '-' && s[10] == 'T' && s[13] == ':' && s[16] == ':' && s[19] == 'Z'
      && IsNumber(s[0..4], c.year) && IsNumber(s[5..7], c.month) && IsNumber(s[8..10], c.day)
      && IsNumber(s[11..13], c.hour) && IsNumber(s[14..16], c.minute) && IsNumber(s[17..19], c.second)
  {
    GmTimeInverse(t);
    CivilLayout(GmTime(t));
    hide GmTime;
    hide FormatCivil;
    hide IsNumber;
  }

  /** One field and its separator: the field decides, and a tie leaves it to the rest. */
  lemma PrecedesField(n: nat, m: nat, w: nat, sep: string, x: string, y: string)
    requires n < Pow10(w) && m < Pow10(w)
    ensures Precedes(Digits(n, w) + (sep + x), Digits(m, w) + (sep + y)) <==> n < m || (n == m && Precedes(x, y))
  {
    PrecedesDigits(n, m, w);
    PrecedesConcat(Digits(n, w), Digits(m, w), sep + x, sep + y);
    PrecedesConcat(sep, sep, x, y);
    PrecedesIrreflexive(sep);
  }

  lemma PrecedesClock(a: Civil, b: Civil)
    requires ValidCivil(a) && ValidCivil(b)
    ensures Precedes(FormatClock(a), FormatClock(b)) <==> EarlierInDay(a, b)
  {
    assert Pow10(2) == 100;
    PrecedesField(a.second, b.second, 2, "Z", "", "");
    assert "Z" + "" == "Z";
    PrecedesField(a.minute, b.minute, 2, ":", Digits(a.second, 2) + "Z", Digits(b.second, 2) + "Z");
    PrecedesField(a.hour, b.hour, 2, ":", Digits(a.minute, 2) + (":" + (Digits(a.second, 2) + "Z")),
                  Digits(b.minute, 2) + (":" + (Digits(b.second, 2) + "Z")));
  }

  lemma PrecedesDate(a: Civil, b: Civil)
    requires ValidCivil(a) && ValidCivil(b)
    ensures Precedes(FormatCivil(a), FormatCivil(b)) <==> Earlier(a, b)
  {
    assert Pow10(2) == 100 && Pow10(4) == 10000;
    PrecedesClock(a, b);
    var dayA, dayB := Digits(a.day, 2) + ("T" + FormatClock(a)), Digits(b.day, 2) + ("T" + FormatClock(b));
    PrecedesField(a.day, b.day, 2, "T", FormatClock(a), FormatClock(b));
    PrecedesField(a.month, b.month, 2, "-", dayA, dayB);
    PrecedesField(a.year, b.year, 4, "-", Digits(a.month, 2) + ("-" + dayA), Digits(b.month, 2) + ("-" + dayB));
  }

  /** Time stamps compare as text exactly as the times they denote compare. */
  lemma TextOrderIsTimeOrder(t: Time, u: Time)
    ensures Precedes(Format(t), Format(u)) <==> t < u
  {
    GmTimeInverse(t);
    GmTimeInverse(u);
    var a, b := GmTime(t), GmTime(u);
    PrecedesDate(a, b);
    if Earlier(a, b) {
      TimeGmMonotone(a, b);
    } else if a != b {
      assert Earlier(b, a);
      TimeGmMonotone(b, a);
    }
  }
}
