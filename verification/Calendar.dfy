/**
  Timestamps: what `strftime('%Y-%m-%dT%H:%M:%SZ')` prints for a time in UTC, and the time that a
  timestamp names, counted in seconds from 1970 (section 5.6 of RFC 3339).
 */
module Calendar {
  import opened Wrappers
  import Decimal

  const DAY: nat := 86400

  /** The last second of the year 9999: no `datetime` is later. */
  const LAST_SECOND: nat := 253402300799

  predicate IsLeap(year: nat) {
    year % 4 == 0 && (year % 100 != 0 || year % 400 == 0)
  }

  function MonthDays(year: nat, month: nat): (n: nat)
    ensures 28 <= n <= 31
  {
    if month == 2 then if IsLeap(year) then 29 else 28
    else if month == 4 || month == 6 || month == 9 || month == 11 then 30 else 31
  }

  datatype Date = Date(year: nat, month: nat, day: nat)

  /** The date `n` days after the first of a month. */
  function DateFrom(year: nat, month: nat, n: nat): (d: Date)
    requires 1 <= month <= 12
    ensures 1 <= d.month <= 12 && 1 <= d.day <= MonthDays(d.year, d.month)
    decreases n
  {
    if n < MonthDays(year, month) then Date(year, month, n + 1)
    else if month < 12 then DateFrom(year, month + 1, n - MonthDays(year, month))
    else DateFrom(year + 1, 1, n - MonthDays(year, month))
  }

  /** The date `n` days after the first of January 1970. */
  function DateOfDay(n: nat): (d: Date)
    ensures 1 <= d.month <= 12 && 1 <= d.day <= 31
  {
    DateFrom(1970, 1, n)
  }

  function Two(n: nat): (s: string)
    requires n < 100
    ensures |s| == 2 && Decimal.AllDigits(s)
  {
    [Decimal.Digit(n / 10), Decimal.Digit(n % 10)]
  }

  function Four(n: nat): (s: string)
    requires n < 10000
    ensures |s| == 4 && Decimal.AllDigits(s)
  {
    Two(n / 100) + Two(n % 100)
  }

  // ---- reading ----

  /** How many days of earlier years there are from 1970 on. */
  function DaysBeforeYear(year: nat): int {
    365 * (year - 1970) + (year - 1) / 4 - (year - 1) / 100 + (year - 1) / 400 - 477
  }

  function DaysBeforeMonth(year: nat, month: nat): nat {
    if month <= 1 then 0 else DaysBeforeMonth(year, month - 1) + MonthDays(year, month - 1)
  }

  function DayNumber(d: Date): int {
    DaysBeforeYear(d.year) + DaysBeforeMonth(d.year, d.month) + d.day - 1
  }

  predicate IsTimestamp(s: string) {
    && |s| == 20
    && Decimal.AllDigits(s[..4]) && s[4] == '-' && Decimal.AllDigits(s[5..7]) && s[7] == '-'
    && Decimal.AllDigits(s[8..10]) && s[10] == 'T' && Decimal.AllDigits(s[11..13]) && s[13] == ':'
    && Decimal.AllDigits(s[14..16]) && s[16] == ':' && Decimal.AllDigits(s[17..19]) && s[19] == 'Z'
  }

  function ReadDate(s: string): Date
    requires IsTimestamp(s)
  {
    Date(Decimal.Parse(s[..4]), Decimal.Parse(s[5..7]), Decimal.Parse(s[8..10]))
  }

  function ReadClock(s: string): nat
    requires IsTimestamp(s)
  {
    Decimal.Parse(s[11..13]) * 3600 + Decimal.Parse(s[14..16]) * 60 + Decimal.Parse(s[17..19])
  }

  /** The time that a timestamp names. */
  function Read(s: string): Option<int> {
    if IsTimestamp(s) then Some(DayNumber(ReadDate(s)) * DAY + ReadClock(s)) else None
  }

  // ---- printing ----

  lemma NextQuotients(n: nat)
    requires n >= 1
    ensures n / 4 == (n - 1) / 4 + if n % 4 == 0 then 1 else 0
    ensures n / 100 == (n - 1) / 100 + if n % 100 == 0 then 1 else 0
    ensures n / 400 == (n - 1) / 400 + if n % 400 == 0 then 1 else 0
  {
  }

  lemma CenturiesAreFourths(n: nat)
    ensures n % 400 == 0 ==> n % 100 == 0
    ensures n % 100 == 0 ==> n % 4 == 0
  {
    MultipleOf100(4 * (n / 400));
    MultipleOf4(25 * (n / 100));
  }

  lemma MultipleOf100(q: nat)
    ensures 100 * q % 100 == 0
  {
  }

  lemma MultipleOf4(q: nat)
    ensures 4 * q % 4 == 0
  {
  }

  lemma YearAfter(year: nat)
    requires year >= 1970
    ensures DaysBeforeYear(year + 1) == DaysBeforeYear(year) + if IsLeap(year) then 366 else 365
  {
    NextQuotients(year);
    CenturiesAreFourths(year);
  }

  lemma {:induction false} MonthsBefore(year: nat, month: nat)
    requires 1 <= month <= 12
    ensures DaysBeforeMonth(year, month)
         == [0, 31, 59, 90, 120, 151, 181, 212, 243, 273, 304, 334][month - 1]
            + if month > 2 && IsLeap(year) then 1 else 0
  {
    if month > 1 {
      MonthsBefore(year, month - 1);
    }
  }

  lemma {:induction false} DateFromIsLater(year: nat, month: nat, n: nat)
    requires year >= 1970 && 1 <= month <= 12
    ensures DayNumber(DateFrom(year, month, n)) == DaysBeforeYear(year) + DaysBeforeMonth(year, month) + n
    ensures DateFrom(year, month, n).year >= year
    decreases n
  {
    if n < MonthDays(year, month) {
    } else if month < 12 {
      DateFromIsLater(year, month + 1, n - MonthDays(year, month));
    } else {
      DateFromIsLater(year + 1, 1, n - MonthDays(year, month));
      DecemberEnds(year);
    }
  }

  lemma DecemberEnds(year: nat)
    requires year >= 1970
    ensures DaysBeforeYear(year) + DaysBeforeMonth(year, 12) + MonthDays(year, 12)
         == DaysBeforeYear(year + 1) + DaysBeforeMonth(year + 1, 1)
  {
    YearAfter(year);
    MonthsBefore(year, 12);
  }

  lemma {:induction false} LaterYear(a: nat, b: nat)
    requires 1970 <= a <= b
    ensures DaysBeforeYear(a) <= DaysBeforeYear(b)
  {
    if a < b {
      LaterYear(a, b - 1);
      YearAfter(b - 1);
    }
  }

  lemma DayOfDate(n: nat)
    ensures DayNumber(DateOfDay(n)) == n && DateOfDay(n).year >= 1970
  {
    DateFromIsLater(1970, 1, n);
  }

  /** Every time that a `datetime` can hold has a date with a year of four digits. */
  lemma FourDigitYear(t: nat)
    requires t <= LAST_SECOND
    ensures DateOfDay(t / DAY).year < 10000
  {
    DayOfDate(t / DAY);
    if DateOfDay(t / DAY).year >= 10000 {
      LaterYear(10000, DateOfDay(t / DAY).year);
    }
  }

  function Clock(seconds: nat): string
    requires seconds < DAY
  {
    Two(seconds / 3600) + (":" + (Two(seconds / 60 % 60) + (":" + Two(seconds % 60))))
  }

  function Stamp(d: Date, seconds: nat): string
    requires d.year < 10000 && d.month < 100 && d.day < 100 && seconds < DAY
  {
    Four(d.year) + ("-" + (Two(d.month) + ("-" + (Two(d.day) + ("T" + (Clock(seconds) + "Z"))))))
  }

  /** The timestamp of a time; times beyond the year 9999 have none. */
  function Print(t: nat): string
    requires t <= LAST_SECOND
  {
    FourDigitYear(t);
    Stamp(DateOfDay(t / DAY), t % DAY)
  }

  lemma DigitsParse(s: string, a: nat, b: nat)
    requires a < 10 && b < 10 && s == [Decimal.Digit(a), Decimal.Digit(b)]
    ensures Decimal.AllDigits(s) && Decimal.Parse(s) == 10 * a + b
  {
    var first := s[..1];
    assert first[..0] == "" && first[0] == Decimal.Digit(a);
    assert Decimal.Parse(first) == a;
  }

  lemma TwoParses(n: nat)
    requires n < 100
    ensures Decimal.Parse(Two(n)) == n
  {
    DigitsParse(Two(n), n / 10, n % 10);
  }

  lemma FourParses(n: nat)
    requires n < 10000
    ensures Decimal.Parse(Four(n)) == n
  {
    var s := Four(n);
    TwoParses(n / 100);
    var third := s[..3];
    assert third[..2] == Two(n / 100) && s[..3] == third && third[2] == Two(n % 100)[0];
    assert Decimal.Parse(third) == 10 * (n / 100) + n % 100 / 10;
  }

  lemma Cut(s: string, a: string, c: char, t: string)
    requires s == a + ([c] + t)
    ensures |s| == |a| + 1 + |t| && s[..|a|] == a && s[|a|] == c && s[|a| + 1..] == t
  {
  }

  lemma Part(s: string, i: nat, t: string, a: nat, b: nat)
    requires i <= |s| && s[i..] == t && a <= b <= |t|
    ensures s[i + a..i + b] == t[a..b] && s[i + a..] == t[a..] && (a < |t| ==> s[i + a] == t[a])
  {
    assert s[i..][a..b] == s[i + a..i + b];
    assert s[i..][a..] == s[i + a..];
  }

  lemma DateFields(s: string, y: string, m: string, d: string, clock: string)
    requires |y| == 4 && |m| == 2 && |d| == 2 && |clock| == 9
    requires s == y + ("-" + (m + ("-" + (d + ("T" + clock)))))
    ensures |s| == 20 && s[..4] == y && s[4] == '-' && s[5..7] == m && s[7] == '-' && s[8..10] == d && s[10] == 'T'
    ensures s[11..] == clock
  {
    var t, u := m + ("-" + (d + ("T" + clock))), d + ("T" + clock);
    Cut(s, y, '-', t);
    Cut(t, m, '-', u);
    Cut(u, d, 'T', clock);
    Part(s, 5, t, 0, 2);
    Part(s, 5, t, 2, 3);
    Part(s, 5, t, 3, 3);
    Part(s, 8, u, 0, 2);
    Part(s, 8, u, 2, 3);
    Part(s, 8, u, 3, 3);
  }

  lemma ClockFields(s: string, h: string, m: string, c: string)
    requires |h| == 2 && |m| == 2 && |c| == 2 && s == h + (":" + (m + (":" + c))) + "Z"
    ensures |s| == 9 && s[..2] == h && s[2] == ':' && s[3..5] == m && s[5] == ':' && s[6..8] == c && s[8] == 'Z'
  {
    var t := m + ([':'] + (c + "Z"));
    assert s == h + ([':'] + t);
    Cut(s, h, ':', t);
    Cut(t, m, ':', c + "Z");
    Part(s, 3, t, 0, 2);
    Part(s, 3, t, 2, 3);
    Part(s, 3, t, 3, 3);
    Part(s, 6, c + "Z", 0, 2);
    Part(s, 6, c + "Z", 2, 3);
  }

  lemma ClockAdds(seconds: nat)
    requires seconds < DAY
    ensures seconds / 3600 * 3600 + seconds / 60 % 60 * 60 + seconds % 60 == seconds
  {
    var m := seconds / 60;
    assert seconds / 3600 == m / 60;
    assert seconds == m * 60 + seconds % 60 && m == m / 60 * 60 + m % 60;
  }

  lemma ClockWithin(s: string, clock: string)
    requires |s| == 20 && |clock| == 9 && s[11..] == clock
    ensures s[11..13] == clock[..2] && s[13] == clock[2] && s[14..16] == clock[3..5] && s[16] == clock[5]
    ensures s[17..19] == clock[6..8] && s[19] == clock[8]
  {
    Part(s, 11, clock, 0, 2);
    Part(s, 11, clock, 2, 3);
    Part(s, 11, clock, 3, 5);
    Part(s, 11, clock, 5, 6);
    Part(s, 11, clock, 6, 8);
    Part(s, 11, clock, 8, 9);
  }

  lemma ReadFields(s: string, d: Date, c: nat)
    requires |s| == 20 && d.year < 10000 && d.month < 100 && d.day < 100 && c < DAY
    requires s[..4] == Four(d.year) && s[4] == '-' && s[5..7] == Two(d.month) && s[7] == '-'
    requires s[8..10] == Two(d.day) && s[10] == 'T'
    requires s[11..13] == Two(c / 3600) && s[13] == ':' && s[14..16] == Two(c / 60 % 60) && s[16] == ':'
    requires s[17..19] == Two(c % 60) && s[19] == 'Z'
    ensures IsTimestamp(s) && ReadDate(s) == d && ReadClock(s) == c
  {
    FourParses(d.year);
    TwoParses(d.month);
    TwoParses(d.day);
    TwoParses(c / 3600);
    TwoParses(c / 60 % 60);
    TwoParses(c % 60);
    ClockAdds(c);
  }

  lemma StampReads(s: string, d: Date, c: nat)
    requires d.year < 10000 && d.month < 100 && d.day < 100 && c < DAY && s == Stamp(d, c)
    ensures IsTimestamp(s) && ReadDate(s) == d && ReadClock(s) == c
  {
    var clock := Clock(c) + "Z";
    ClockFields(clock, Two(c / 3600), Two(c / 60 % 60), Two(c % 60));
    DateFields(s, Four(d.year), Two(d.month), Two(d.day), clock);
    ClockWithin(s, clock);
    ReadFields(s, d, c);
  }

  lemma StampTime(s: string, d: Date, c: nat, t: nat)
    requires d.year < 10000 && d.month < 100 && d.day < 100 && c < DAY && s == Stamp(d, c)
    requires DayNumber(d) == t / DAY && c == t % DAY
    ensures IsTimestamp(s) && Read(s) == Some(t)
  {
    StampReads(s, d, c);
  }

  /** The printed timestamp names the time that it was printed for. */
  lemma ReadPrint(t: nat)
    requires t <= LAST_SECOND
    ensures IsTimestamp(Print(t)) && Read(Print(t)) == Some(t)
  {
    FourDigitYear(t);
    DayOfDate(t / DAY);
    StampTime(Print(t), DateOfDay(t / DAY), t % DAY, t);
  }
}
