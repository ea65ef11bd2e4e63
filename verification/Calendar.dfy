/** Calendar days, and the zero-padded texts that index names carry. */
module Calendar {
  import opened Text

  datatype Date = Date(year: nat, month: nat, day: nat)

  /** The dates that the texts can show. */
  predicate Printable(d: Date) {
    d.year < 10000 && d.month < 100 && d.day < 100
  }

  predicate Le(a: Date, b: Date) {
    a.year < b.year || (a.year == b.year && (a.month < b.month || (a.month == b.month && a.day <= b.day)))
  }

  // ----- Days since 1 January of year 1 -----

  predicate LeapYear(y: nat) {
    y % 4 == 0 && (y % 100 != 0 || y % 400 == 0)
  }

  function MonthLength(y: nat, m: nat): nat {
    if m == 2 then (if LeapYear(y) then 29 else 28)
    else if m in {4, 6, 9, 11} then 30
    else 31
  }

  function NextDay(d: Date): Date {
    if d.day < MonthLength(d.year, d.month) then d.(day := d.day + 1)
    else if d.month < 12 then Date(d.year, d.month + 1, 1)
    else Date(d.year + 1, 1, 1)
  }

  function DateOf(n: nat): (d: Date)
    ensures 1 <= d.month <= 12 && 1 <= d.day <= MonthLength(d.year, d.month)
  {
    if n == 0 then Date(1, 1, 1) else NextDay(DateOf(n - 1))
  }

  lemma {:induction false} DateOfIncreases(m: nat, n: nat)
    requires m < n
    ensures Le(DateOf(m), DateOf(n)) && DateOf(m) != DateOf(n)
  {
    if m < n - 1 {
      DateOfIncreases(m, n - 1);
    }
  }

  /** Calendar order is the order of the days. */
  lemma {:induction false} DateOrder(m: nat, n: nat)
    ensures Le(DateOf(m), DateOf(n)) <==> m <= n
  {
    if m < n {
      DateOfIncreases(m, n);
    } else if n < m {
      DateOfIncreases(n, m);
    }
  }

  // ----- The day count of the Gregorian calendar -----

  lemma {:induction false} WithinMonth(n: nat, y: nat, m: nat, k: nat)
    requires DateOf(n) == Date(y, m, 1) && k < MonthLength(y, m)
    ensures DateOf(n + k) == Date(y, m, 1 + k)
  {
    if k > 0 {
      WithinMonth(n, y, m, k - 1);
      assert DateOf(n + k) == NextDay(DateOf(n + k - 1));
    }
  }

  lemma {:induction false} NextMonth(n: nat, y: nat, m: nat)
    requires DateOf(n) == Date(y, m, 1)
    ensures DateOf(n + MonthLength(y, m)) == if m < 12 then Date(y, m + 1, 1) else Date(y + 1, 1, 1)
  {
    WithinMonth(n, y, m, MonthLength(y, m) - 1);
  }

  function DaysInMonths(y: nat, m: nat): nat {
    if m == 0 then 0 else DaysInMonths(y, m - 1) + MonthLength(y, m)
  }

  lemma {:induction false} MonthStart(n: nat, y: nat, m: nat)
    requires DateOf(n) == Date(y, 1, 1) && m < 12
    ensures DateOf(n + DaysInMonths(y, m)) == Date(y, m + 1, 1)
  {
    if m > 0 {
      MonthStart(n, y, m - 1);
      NextMonth(n + DaysInMonths(y, m - 1), y, m);
    }
  }

  lemma {:induction false} DaysInYear(y: nat)
    ensures DaysInMonths(y, 12) == if LeapYear(y) then 366 else 365
  {
    var february := MonthLength(y, 2);
    assert DaysInMonths(y, 1) == 31;
    assert DaysInMonths(y, 3) == 62 + february;
    assert DaysInMonths(y, 5) == 123 + february;
    assert DaysInMonths(y, 7) == 184 + february;
    assert DaysInMonths(y, 9) == 245 + february;
    assert DaysInMonths(y, 11) == 306 + february;
  }

  /** The days before a year, by the rule of leap years. */
  function DaysBefore(y: nat): int {
    365 * (y - 1) + (y - 1) / 4 - (y - 1) / 100 + (y - 1) / 400
  }

  lemma {:induction false} FourthYear(n: nat)
    ensures (n + 1) / 4 == n / 4 + if (n + 1) % 4 == 0 then 1 else 0
  {
  }

  lemma {:induction false} HundredthYear(n: nat)
    ensures (n + 1) / 100 == n / 100 + if (n + 1) % 100 == 0 then 1 else 0
  {
  }

  lemma {:induction false} FourHundredthYear(n: nat)
    ensures (n + 1) / 400 == n / 400 + if (n + 1) % 400 == 0 then 1 else 0
  {
  }

  lemma {:induction false} CenturyIsFourthYear(y: nat)
    requires y % 100 == 0
    ensures y % 4 == 0
  {
    var k := 25 * (y / 100);
    assert y == 4 * k;
  }

  lemma {:induction false} FourCenturiesAreCenturies(y: nat)
    requires y % 400 == 0
    ensures y % 100 == 0
  {
    var k := 4 * (y / 400);
    assert y == 100 * k;
  }

  lemma {:induction false} DaysBeforeNext(y: nat)
    requires y > 0
    ensures DaysBefore(y + 1) == DaysBefore(y) + if LeapYear(y) then 366 else 365
  {
    FourthYear(y - 1);
    HundredthYear(y - 1);
    FourHundredthYear(y - 1);
    if y % 100 == 0 { CenturyIsFourthYear(y); }
    if y % 400 == 0 { FourCenturiesAreCenturies(y); }
  }

  lemma {:induction false} NextYear(n: nat, y: nat)
    requires DateOf(n) == Date(y, 1, 1)
    ensures DateOf(n + DaysInMonths(y, 12)) == Date(y + 1, 1, 1)
  {
    MonthStart(n, y, 11);
    NextMonth(n + DaysInMonths(y, 11), y, 12);
  }

  /** The first day of every year is where the rule of leap years puts it. */
  lemma {:induction false} YearStart(y: nat)
    requires y > 0
    ensures DaysBefore(y) >= 0 && DateOf(DaysBefore(y)) == Date(y, 1, 1)
  {
    if y > 1 {
      YearStart(y - 1);
      NextYear(DaysBefore(y - 1), y - 1);
      DaysInYear(y - 1);
      DaysBeforeNext(y - 1);
    }
  }

  /** The number of a day from its date alone: full years, then full months by a closed form, then days. */
  function DayNumber(d: Date): int {
    DaysBefore(d.year) + (367 * d.month - 362) / 12
    + (if d.month <= 2 then 0 else if LeapYear(d.year) then -1 else -2)
    + d.day - 1
  }

  lemma {:induction false} MonthsInClosedForm(y: nat, m: nat)
    requires 1 <= m < 12 && y > 0
    ensures DayNumber(Date(y, m + 1, 1)) == DayNumber(Date(y, m, MonthLength(y, m))) + 1
  {
  }

  lemma {:induction false} NextDayNumber(d: Date)
    requires d.year > 0 && 1 <= d.month <= 12 && 1 <= d.day <= MonthLength(d.year, d.month)
    ensures DayNumber(NextDay(d)) == DayNumber(d) + 1 && NextDay(d).year > 0
  {
    if d.day == MonthLength(d.year, d.month) {
      if d.month < 12 {
        MonthsInClosedForm(d.year, d.month);
      } else {
        DaysBeforeNext(d.year);
      }
    }
  }

  /** Days are counted without gaps: the date of day n has the number n. */
  lemma {:induction false} DateHasNumber(n: nat)
    ensures DayNumber(DateOf(n)) == n && DateOf(n).year > 0
  {
    if n > 0 {
      DateHasNumber(n - 1);
      NextDayNumber(DateOf(n - 1));
    }
  }

  const EPOCH_DAY := 719162

  /** The day from which times in seconds are counted is the first of 1970. */
  lemma {:induction false} EpochIs1970()
    ensures EPOCH_DAY == DaysBefore(1970)
  {
  }

  // ----- Texts -----

  function Pad2(n: nat): string
    requires n < 100
  {
    [DigitChar(n / 10), DigitChar(n % 10)]
  }

  function Pad4(n: nat): string
    requires n < 10000
  {
    Pad2(n / 100) + Pad2(n % 100)
  }

  /** The date part of a daily index name. */
  function DateText(d: Date): string
    requires Printable(d)
  {
    Pad4(d.year) + "." + (Pad2(d.month) + "." + Pad2(d.day))
  }

  lemma {:induction false} Pad2Order(a: nat, b: nat, s: string, t: string)
    requires a < 100 && b < 100
    ensures LexLe(Pad2(a) + s, Pad2(b) + t) <==> a < b || (a == b && LexLe(s, t))
    ensures Pad2(a) == Pad2(b) <==> a == b
  {
    DigitOrder(a / 10, b / 10);
    DigitOrder(a % 10, b % 10);
    assert (Pad2(a) + s)[1..][1..] == s && (Pad2(b) + t)[1..][1..] == t;
  }

  lemma {:induction false} Pad4Order(a: nat, b: nat, s: string, t: string)
    requires a < 10000 && b < 10000
    ensures LexLe(Pad4(a) + s, Pad4(b) + t) <==> a < b || (a == b && LexLe(s, t))
    ensures Pad4(a) == Pad4(b) <==> a == b
  {
    Pad2Order(a / 100, b / 100, Pad2(a % 100) + s, Pad2(b % 100) + t);
    Pad2Order(a % 100, b % 100, s, t);
    assert Pad4(a) + s == Pad2(a / 100) + (Pad2(a % 100) + s);
    assert Pad4(b) + t == Pad2(b / 100) + (Pad2(b % 100) + t);
    assert Pad4(a)[..2] == Pad2(a / 100) && Pad4(a)[2..] == Pad2(a % 100);
    assert Pad4(b)[..2] == Pad2(b / 100) && Pad4(b)[2..] == Pad2(b % 100);
  }

  /** String order on zero-padded dates is calendar order. */
  lemma {:induction false} DateTextOrder(a: Date, b: Date)
    requires Printable(a) && Printable(b)
    ensures LexLe(DateText(a), DateText(b)) <==> Le(a, b)
  {
    var ra, rb := Pad2(a.month) + "." + Pad2(a.day), Pad2(b.month) + "." + Pad2(b.day);
    assert DateText(a) == Pad4(a.year) + ("." + ra) && DateText(b) == Pad4(b.year) + ("." + rb);
    Pad4Order(a.year, b.year, "." + ra, "." + rb);
    LexLePrefix(".", ra, rb);
    assert ra == Pad2(a.month) + ("." + Pad2(a.day)) && rb == Pad2(b.month) + ("." + Pad2(b.day));
    Pad2Order(a.month, b.month, "." + Pad2(a.day), "." + Pad2(b.day));
    LexLePrefix(".", Pad2(a.day), Pad2(b.day));
    Pad2Order(a.day, b.day, "", "");
    assert Pad2(a.day) + "" == Pad2(a.day) && Pad2(b.day) + "" == Pad2(b.day);
  }

  /** The date text of a day. */
  function DayText(n: nat): string
    requires DateOf(n).year < 10000
  {
    DateText(DateOf(n))
  }

  /** String order on the date texts of days is the order of the days. */
  lemma {:induction false} DayTextOrder(m: nat, n: nat)
    requires DateOf(m).year < 10000 && DateOf(n).year < 10000
    ensures LexLe(DayText(m), DayText(n)) <==> m <= n
  {
    DateTextOrder(DateOf(m), DateOf(n));
    DateOrder(m, n);
  }
}
