/** UTC times as text in the two forms the share server compares: an expiry as 2026-01-31T09:05:00Z (RFC 3339) and the
    current time as 2026-01-31 09:05:00 (SQLite's datetime). */
module Calendar {

  datatype Date = Date(year: nat, month: nat, day: nat)

  predicate IsLeap(y: nat) {
    y % 4 == 0 && (y % 100 != 0 || y % 400 == 0)
  }

  function DaysIn(y: nat, m: nat): nat {
    if m == 2 then (if IsLeap(y) then 29 else 28) else if m == 4 || m == 6 || m == 9 || m == 11 then 30 else 31
  }

  predicate IsDate(d: Date) {
    1 <= d.month <= 12 && 1 <= d.day <= DaysIn(d.year, d.month)
  }

  function NextDay(d: Date): Date {
    if d.day < DaysIn(d.year, d.month) then d.(day := d.day + 1)
    else if d.month < 12 then Date(d.year, d.month + 1, 1)
    else Date(d.year + 1, 1, 1)
  }

  /** The date n days after the first of January of the year 0. */
  function DateOf(n: nat): (d: Date)
    ensures IsDate(d)
  {
    if n == 0 then Date(0, 1, 1) else NextDay(DateOf(n - 1))
  }

  predicate Earlier(a: Date, b: Date) {
    a.year < b.year || (a.year == b.year && (a.month < b.month || (a.month == b.month && a.day < b.day)))
  }

  lemma {:induction false} DatesGrow(m: nat, n: nat)
    requires m < n
    ensures Earlier(DateOf(m), DateOf(n))
  {
    if m < n - 1 {
      DatesGrow(m, n - 1);
    }
  }

  // ---------------------------------------------------------------- text

  function Digit(n: nat): char
    requires n < 10
  {
    ('0' as int + n) as char
  }

  function Two(n: nat): (s: string)
    requires n < 100
    ensures |s| == 2
  {
    [Digit(n / 10), Digit(n % 10)]
  }

  function Four(n: nat): (s: string)
    requires n < 10000
    ensures |s| == 4
  {
    Two(n / 100) + Two(n % 100)
  }

  function PrintDate(d: Date): (s: string)
    requires IsDate(d) && d.year <= 9999
    ensures |s| == 10
  {
    Four(d.year) + "-" + Two(d.month) + "-" + Two(d.day)
  }

  function PrintClock(seconds: nat): string
    requires seconds < 86400
  {
    Two(seconds / 3600) + ":" + Two(seconds / 60 % 60) + ":" + Two(seconds % 60)
  }

  // ---------------------------------------------------------------- order of texts

  /** The order of texts byte by byte. */
  predicate Less(a: string, b: string) {
    b != "" && (a == "" || a[0] < b[0] || (a[0] == b[0] && Less(a[1..], b[1..])))
  }

  lemma {:induction false} NotLessSelf(a: string)
    ensures !Less(a, a)
  {
    if a != "" {
      NotLessSelf(a[1..]);
    }
  }

  /** After a common beginning the rest decides. */
  lemma {:induction false} LessAfter(p: string, x: string, y: string)
    ensures Less(p + x, p + y) <==> Less(x, y)
  {
    if p == "" {
      assert p + x == x && p + y == y;
    } else {
      assert (p + x)[1..] == p[1..] + x && (p + y)[1..] == p[1..] + y;
      LessAfter(p[1..], x, y);
    }
  }

  /** Different beginnings of one length decide. */
  lemma {:induction false} LessBefore(a: string, b: string, x: string, y: string)
    requires |a| == |b| && a != b
    ensures Less(a + x, b + y) <==> Less(a, b)
  {
    assert (a + x)[1..] == a[1..] + x && (b + y)[1..] == b[1..] + y;
    if a[0] == b[0] {
      assert a == [a[0]] + a[1..] && b == [b[0]] + b[1..];
      LessBefore(a[1..], b[1..], x, y);
    }
  }

  lemma {:induction false} TwoLess(m: nat, n: nat)
    requires m < n < 100
    ensures Less(Two(m), Two(n)) && Two(m) != Two(n)
  {
    assert m / 10 <= n / 10;
    var a, b := Two(m), Two(n);
    if m / 10 == n / 10 {
      assert m % 10 < n % 10;
      assert a[1..][0] < b[1..][0];
    }
  }

  lemma {:induction false} FourLess(m: nat, n: nat)
    requires m < n < 10000
    ensures Less(Four(m), Four(n)) && Four(m) != Four(n)
  {
    NotLessSelf(Four(m));
    if m / 100 == n / 100 {
      TwoLess(m % 100, n % 100);
      LessAfter(Two(m / 100), Two(m % 100), Two(n % 100));
    } else {
      assert m / 100 < n / 100;
      TwoLess(m / 100, n / 100);
      LessBefore(Two(m / 100), Two(n / 100), Two(m % 100), Two(n % 100));
    }
  }

  /** The texts of dates are in the order of the dates. */
  lemma {:induction false} PrintedLess(a: Date, b: Date)
    requires IsDate(a) && IsDate(b) && b.year <= 9999 && Earlier(a, b)
    ensures Less(PrintDate(a), PrintDate(b)) && PrintDate(a) != PrintDate(b)
  {
    var ya, yb, ma, mb, da, db := Four(a.year), Four(b.year), Two(a.month), Two(b.month), Two(a.day), Two(b.day);
    assert PrintDate(a) == ya + ("-" + (ma + ("-" + da))) && PrintDate(b) == yb + ("-" + (mb + ("-" + db)));
    NotLessSelf(PrintDate(a));
    hide Less, Two, Four;
    if a.year < b.year {
      FourLess(a.year, b.year);
      LessBefore(ya, yb, "-" + (ma + ("-" + da)), "-" + (mb + ("-" + db)));
    } else {
      LessAfter(ya, "-" + (ma + ("-" + da)), "-" + (mb + ("-" + db)));
      LessAfter("-", ma + ("-" + da), mb + ("-" + db));
      if a.month < b.month {
        TwoLess(a.month, b.month);
        LessBefore(ma, mb, "-" + da, "-" + db);
      } else {
        TwoLess(a.day, b.day);
        LessAfter(ma, "-" + da, "-" + db);
        LessAfter("-", da, db);
      }
    }
  }

  // ---------------------------------------------------------------- times

  /** Nanoseconds since the year 0 began. */
  type Instant = nat

  const SECOND := 1_000_000_000
  const DAY := 86400 * SECOND

  function DayOf(t: Instant): nat {
    t / SECOND / 86400
  }

  /** The times whose year has four digits. */
  predicate Printable(t: Instant) {
    DateOf(DayOf(t)).year <= 9999
  }

  /** t.UTC().Format(time.RFC3339) */
  function PrintExpiry(t: Instant): string
    requires Printable(t)
  {
    PrintDate(DateOf(DayOf(t))) + "T" + PrintClock(t / SECOND % 86400) + "Z"
  }

  /** SQLite's datetime('now') */
  function PrintNow(t: Instant): string
    requires Printable(t)
  {
    PrintDate(DateOf(DayOf(t))) + " " + PrintClock(t / SECOND % 86400)
  }

  /** As texts, an expiry is less than the current time exactly when its UTC date is an earlier one: on one date the T
      is greater than the space, whatever the clocks say. */
  lemma {:induction false} LessExactly(expiry: Instant, now: Instant)
    requires Printable(expiry) && Printable(now)
    ensures Less(PrintExpiry(expiry), PrintNow(now)) <==> DayOf(expiry) < DayOf(now)
  {
    var a, b := PrintDate(DateOf(DayOf(expiry))), PrintDate(DateOf(DayOf(now)));
    var x := "T" + (PrintClock(expiry / SECOND % 86400) + "Z");
    var y := " " + PrintClock(now / SECOND % 86400);
    assert PrintExpiry(expiry) == a + x && PrintNow(now) == b + y;
    if DayOf(expiry) == DayOf(now) {
      LessAfter(a, x, y);
      assert x[0] == 'T' && y[0] == ' ';
    } else {
      DatesOrder(DayOf(expiry), DayOf(now));
      LessBefore(a, b, x, y);
    }
  }

  lemma {:induction false} DatesOrder(m: nat, n: nat)
    requires DateOf(m).year <= 9999 && DateOf(n).year <= 9999 && m != n
    ensures var a, b := PrintDate(DateOf(m)), PrintDate(DateOf(n)); a != b && (Less(a, b) <==> m < n)
  {
    if m < n {
      DatesGrow(m, n);
      PrintedLess(DateOf(m), DateOf(n));
    } else {
      DatesGrow(n, m);
      PrintedLess(DateOf(n), DateOf(m));
      NotBothLess(PrintDate(DateOf(n)), PrintDate(DateOf(m)));
    }
  }

  lemma {:induction false} NotBothLess(a: string, b: string)
    ensures !(Less(a, b) && Less(b, a))
  {
    if a != "" && b != "" {
      NotBothLess(a[1..], b[1..]);
    }
  }

  lemma {:induction false} DaysLater(t: Instant, n: nat)
    ensures DayOf(t + n * DAY) == DayOf(t) + n
  {
    Seconds(t, n);
    assert (t / SECOND + n * 86400) / 86400 == t / SECOND / 86400 + n;
  }

  lemma {:induction false} Seconds(t: Instant, n: nat)
    ensures (t + n * DAY) / SECOND == t / SECOND + n * 86400
  {
    assert n * DAY == n * 86400 * SECOND;
  }

  lemma {:induction false} LaterDay(s: Instant, t: Instant)
    requires s <= t
    ensures DayOf(s) <= DayOf(t)
  {
    assert s / SECOND <= t / SECOND;
  }

  // ---------------------------------------------------------------- dates and texts as they are

  /** From one day to the next: within a month, at its end, at the end of February of both kinds, and of the year. */
  lemma {:induction false} DayAfter(y: nat, m: nat, d: nat)
    requires IsDate(Date(y, m, d))
    ensures var leap := y % 4 == 0 && (y % 100 != 0 || y % 400 == 0);
            var length := if m == 2 then (if leap then 29 else 28) else if m in {4, 6, 9, 11} then 30 else 31;
            && 1 <= m <= 12 && 1 <= d <= length
            && (d < length ==> NextDay(Date(y, m, d)) == Date(y, m, d + 1))
            && (d == length && m < 12 ==> NextDay(Date(y, m, d)) == Date(y, m + 1, 1))
            && (d == length && m == 12 ==> NextDay(Date(y, m, d)) == Date(y + 1, 1, 1))
  {
  }

  /** An instant lies in its day, of 86400 seconds of a thousand million nanoseconds. */
  lemma {:induction false} DayHolds(t: Instant)
    ensures DayOf(t) * 86_400_000_000_000 <= t < (DayOf(t) + 1) * 86_400_000_000_000
    ensures DateOf(0) == Date(0, 1, 1) && DateOf(DayOf(t) + 1) == NextDay(DateOf(DayOf(t)))
  {
  }

  predicate IsDigit(c: char, n: nat) {
    n < 10 && c == "0123456789"[n]
  }

  /** The two characters are the decimal digits of `n`. */
  predicate IsTwo(s: string, i: nat, n: nat) {
    i + 1 < |s| && n < 100 && IsDigit(s[i], n / 10) && IsDigit(s[i + 1], n % 10)
  }

  lemma {:induction false} TwoDigits(n: nat)
    requires n < 100
    ensures IsTwo(Two(n), 0, n)
  {
  }

  lemma {:induction false} FourDigits(n: nat)
    requires n < 10000
    ensures IsTwo(Four(n), 0, n / 100) && IsTwo(Four(n), 2, n % 100)
  {
    TwoDigits(n / 100);
    TwoDigits(n % 100);
    hide Two;
  }

  /** yyyy-mm-dd in the first ten characters, and hh:mm:ss from the twelfth on. */
  predicate IsTimeText(s: string, d: Date, seconds: nat) {
    && |s| >= 19 && s[4] == '-' && s[7] == '-' && s[13] == ':' && s[16] == ':'
    && IsTwo(s, 0, d.year / 100) && IsTwo(s, 2, d.year % 100) && IsTwo(s, 5, d.month) && IsTwo(s, 8, d.day)
    && IsTwo(s, 11, seconds / 3600) && IsTwo(s, 14, seconds / 60 % 60) && IsTwo(s, 17, seconds % 60)
  }

  lemma {:induction false} TimeText(d: Date, seconds: nat, sep: char, end: string)
    requires IsDate(d) && d.year <= 9999 && seconds < 86400
    ensures IsTimeText(PrintDate(d) + [sep] + PrintClock(seconds) + end, d, seconds)
    ensures |PrintDate(d)| == 10 && |PrintClock(seconds)| == 8
  {
    FourDigits(d.year);
    TwoDigits(d.month);
    TwoDigits(d.day);
    TwoDigits(seconds / 3600);
    TwoDigits(seconds / 60 % 60);
    TwoDigits(seconds % 60);
    hide Two, Four, IsDigit;
  }

  /** The two forms: an expiry has a T in the middle and a Z at the end, the current time a space and nothing. */
  lemma {:induction false} PrintedForms(t: Instant)
    requires Printable(t)
    ensures var d, seconds := DateOf(DayOf(t)), t / 1_000_000_000 % 86400;
            && IsTimeText(PrintExpiry(t), d, seconds) && IsTimeText(PrintNow(t), d, seconds)
            && |PrintExpiry(t)| == 20 && PrintExpiry(t)[10] == 'T' && PrintExpiry(t)[19] == 'Z'
            && |PrintNow(t)| == 19 && PrintNow(t)[10] == ' '
  {
    var d, seconds := DateOf(DayOf(t)), t / SECOND % 86400;
    TimeText(d, seconds, 'T', "Z");
    TimeText(d, seconds, ' ', "");
    hide PrintDate, PrintClock, IsTimeText;
    assert PrintExpiry(t) == PrintDate(d) + ['T'] + PrintClock(seconds) + "Z";
    assert PrintNow(t) == PrintDate(d) + [' '] + PrintClock(seconds) + "";
  }
}
