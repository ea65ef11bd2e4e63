/** The time window of a statistics request and the daily indexes that its query reads. */
module TimelionWindow {
  import opened Prelude
  import opened Text
  import opened Calendar

  // ----- The window -----

  /** A numeric request argument: left empty, not a number, or a number. */
  datatype Arg = Empty | NotANumber | Value(n: int)

  datatype Window = Window(interval: int, from_: int, to: int)

  /** Division that drops the fraction, whatever the signs. */
  function TruncDiv(a: int, b: int): int
    requires b != 0
  {
    if (a >= 0) == (b > 0) then Abs(a) / Abs(b) else -(Abs(a) / Abs(b))
  }

  function Abs(a: int): nat {
    if a < 0 then -a else a
  }

  lemma {:induction false} NegatedFactors(k: int, m: int)
    ensures (-k) * (-m) == k * m
  {
  }

  lemma {:induction false} QuotientFits(a: int, m: int)
    requires a >= 0 && m > 0
    ensures a / m * m <= a && a - a / m * m < m
  {
    assert a == a / m * m + a % m;
  }

  lemma {:induction false} TruncDivIs(a: int, b: int)
    requires a >= 0 && b != 0
    ensures var q := TruncDiv(a, b); q * b <= a && a - q * b < Abs(b)
  {
    var m: int := Abs(b);
    QuotientFits(a, m);
    if b < 0 {
      NegatedFactors(a / m, m);
      assert a > 0 ==> TruncDiv(a, b) * b == (-(a / m)) * (-m);
    }
  }

  /** The interval that a request means: the length of a sample, or what was asked for, or how values are stored. */
  predicate AskedFor(interval: Arg, totalSample: Arg, storageInterval: int, length: int, n: int) {
    match totalSample
    case Value(samples) => n * samples <= length && length - n * samples < Abs(samples)
    case _ => n == if interval.Value? then interval.n else storageInterval
  }

  /**
   * An accepted window is not empty, keeps its length when it is shifted by the storage
   * offset, and has the interval that the request means.
   */
  function ParseInterval(from_: Arg, to: Arg, interval: Arg, totalSample: Arg, storageInterval: int, offset: int)
    : (r: Result<Window>)
    ensures r.Ok? ==> from_.Value? && to.Value? && r.value.from_ < r.value.to
    ensures r.Ok? ==> r.value.to - r.value.from_ == to.n - from_.n && r.value.from_ == from_.n - offset
    ensures r.Ok? ==> AskedFor(interval, totalSample, storageInterval, to.n - from_.n, r.value.interval)
    ensures r.Err? <==>
            (|| !from_.Value? || !to.Value? || to.n <= from_.n
             || totalSample.NotANumber? || totalSample == Value(0)
             || (totalSample.Empty? && !interval.Empty? && !(interval.Value? && interval.n >= 1)))
  {
    if !from_.Value? || !to.Value? then Err(InvalidRequest)
    else
      var diff := to.n - from_.n;
      if diff <= 0 then Err(InvalidRequest)
      else if totalSample.Empty? && interval.Empty? then Ok(Window(storageInterval, from_.n - offset, to.n - offset))
      else if !totalSample.Empty? then
        if totalSample.NotANumber? || totalSample.n == 0 then Err(InvalidRequest)
        else
          TruncDivIs(diff, totalSample.n);
          Ok(Window(TruncDiv(diff, totalSample.n), from_.n - offset, to.n - offset))
      else if interval.NotANumber? || interval.n < 1 then Err(InvalidRequest)
      else Ok(Window(interval.n, from_.n - offset, to.n - offset))
  }

  const SECONDS_PER_DAY := 86400

  /** The day of a time in seconds since 1970, counted from 1 January of year 1. */
  function DayOf(seconds: int): int {
    seconds / SECONDS_PER_DAY + EPOCH_DAY
  }

  /** The seconds of a day are counted from its midnight. */
  lemma {:induction false} DayOfTime(day: int, hour: nat, minute: nat, second: nat)
    requires hour < 24 && minute < 60 && second < 60
    ensures DayOf((day - DaysBefore(1970)) * 86400 + hour * 3600 + minute * 60 + second) == day
  {
    EpochIs1970();
  }

  /** Times that have a printable calendar date. */
  predicate HasDate(seconds: int) {
    DayOf(seconds) >= 0 && DateOf(DayOf(seconds)).year < 10000
  }

  // ----- Time texts -----

  function IsoDate(d: Date): string
    requires Printable(d)
  {
    Pad4(d.year) + ['-'] + (Pad2(d.month) + ['-'] + Pad2(d.day))
  }

  /** The date components of a time text, as the texts they are. */
  function DateParts(time: string): seq<string> {
    Split(Split(time, 'T')[0], '-')
  }

  function Parts(d: Date): seq<string>
    requires Printable(d)
  {
    [Pad4(d.year), Pad2(d.month), Pad2(d.day)]
  }

  lemma {:induction false} Pad2Free(n: nat, c: char)
    requires n < 100 && !('0' <= c <= '9')
    ensures c !in Pad2(n)
  {
  }

  lemma {:induction false} PartsFree(d: Date, c: char)
    requires Printable(d) && !('0' <= c <= '9')
    ensures c !in Pad4(d.year) && c !in Pad2(d.month) && c !in Pad2(d.day)
  {
    Pad2Free(d.year / 100, c);
    Pad2Free(d.year % 100, c);
    Pad2Free(d.month, c);
    Pad2Free(d.day, c);
  }

  lemma {:induction false} DatePartsOfIso(d: Date, clock: string)
    requires Printable(d)
    ensures DateParts(IsoDate(d) + ['T'] + clock) == Parts(d)
  {
    PartsFree(d, 'T');
    PartsFree(d, '-');
    SplitAtSeparator(IsoDate(d), 'T', clock);
    SplitSinglePiece(IsoDate(d), 'T');
    SplitAtSeparator(Pad4(d.year), '-', Pad2(d.month) + ['-'] + Pad2(d.day));
    SplitAtSeparator(Pad2(d.month), '-', Pad2(d.day));
    SplitSinglePiece(Pad4(d.year), '-');
    SplitSinglePiece(Pad2(d.month), '-');
    SplitSinglePiece(Pad2(d.day), '-');
  }

  // ----- Narrowing -----

  const INDEXES := ["statsd_timerdata-*", "statsd_counter-*", "statsd_gauge-*"]

  /** The pattern for the part of the calendar that two dates have in common. */
  function Narrowed(index: string, f: seq<string>, t: seq<string>): string
    requires |f| == 3 && |t| == 3
  {
    if f == t then Replace(index, "*", f[0] + "." + f[1] + "." + f[2])
    else if f[0] == t[0] && f[1] == t[1] then Replace(index, "*", t[0] + "." + t[1] + ".*")
    else if f[0] == t[0] then Replace(index, "*", t[0] + ".*")
    else index
  }

  /** The first known index that occurs in a metric, or nothing. */
  function IndexIn(metric: string, indexes: seq<string>): string {
    if indexes == [] then ""
    else if Contains(metric, indexes[0]) then indexes[0]
    else IndexIn(metric, indexes[1..])
  }

  function UpdatedIndex(metric: string, f: seq<string>, t: seq<string>): string
    requires |f| == 3 && |t| == 3
  {
    Replace(metric, IndexIn(metric, INDEXES), Narrowed(IndexIn(metric, INDEXES), f, t))
  }

  method UpdateIndex(metric: string, fromT: string, toT: string) returns (r: string)
    requires |DateParts(fromT)| == 3 && |DateParts(toT)| == 3
    ensures r == UpdatedIndex(metric, DateParts(fromT), DateParts(toT))
  {
    var f, t := DateParts(fromT), DateParts(toT);
    var oldIndex := "";
    var n := 0;
    while n < |INDEXES|
      invariant 0 <= n <= |INDEXES|
      invariant IndexIn(metric, INDEXES) == IndexIn(metric, INDEXES[n..])
    {
      assert INDEXES[n..][1..] == INDEXES[n + 1..];
      if Contains(metric, INDEXES[n]) {
        oldIndex := INDEXES[n];
        break;
      }
      n := n + 1;
    }
    var newIndex;
    if f == t {
      newIndex := Replace(oldIndex, "*", f[0] + "." + f[1] + "." + f[2]);
    } else if f[0] == t[0] && f[1] == t[1] {
      newIndex := Replace(oldIndex, "*", t[0] + "." + t[1] + ".*");
    } else if f[0] == t[0] {
      newIndex := Replace(oldIndex, "*", t[0] + ".*");
    } else {
      newIndex := oldIndex;
    }
    r := Replace(metric, oldIndex, newIndex);
  }

  // ----- What a pattern matches -----

  predicate Glob(pattern: string, s: string)
    decreases |pattern| + |s|
  {
    if pattern == "" then s == ""
    else if pattern[0] == '*' then Glob(pattern[1..], s) || (s != "" && Glob(pattern, s[1..]))
    else s != "" && s[0] == pattern[0] && Glob(pattern[1..], s[1..])
  }

  lemma {:induction false} GlobStar(s: string)
    ensures Glob("*", s)
  {
    assert "*"[1..] == "";
    if s != "" {
      GlobStar(s[1..]);
    }
  }

  lemma {:induction false} GlobLiteral(a: string, p: string, s: string)
    requires '*' !in a
    ensures Glob(a + p, s) <==> a <= s && Glob(p, s[|a|..])
    decreases |a|
  {
    if a == "" {
      assert a + p == p && s[|a|..] == s;
    } else {
      var whole := a + p;
      assert a[0] in a && whole[0] == a[0] && whole[1..] == a[1..] + p;
      forall x | x in a[1..] ensures x in a {}
      if s != "" && s[0] == a[0] {
        GlobLiteral(a[1..], p, s[1..]);
        assert a <= s <==> a[1..] <= s[1..];
        if a <= s {
          assert s[1..][|a| - 1..] == s[|a|..];
        }
      }
    }
  }

  /** A literal text, perhaps followed by a star, against an index name of the same stem. */
  lemma {:induction false} GlobSameStem(stem: string, a: string, open: bool, rest: string)
    requires '*' !in stem && '*' !in a
    ensures Glob(stem + (a + if open then "*" else ""), stem + rest) <==> if open then a <= rest else a == rest
  {
    var p := a + if open then "*" else "";
    GlobLiteral(stem, p, stem + rest);
    assert (stem + rest)[|stem|..] == rest;
    GlobLiteral(a, if open then "*" else "", rest);
    if a <= rest {
      GlobStar(rest[|a|..]);
    }
  }

  predicate SameMonth(a: Date, b: Date) {
    a.year == b.year && a.month == b.month
  }

  /** The days that the narrowed pattern keeps. */
  predicate Kept(f: Date, t: Date, x: Date) {
    if f == t then x == f
    else if SameMonth(f, t) then SameMonth(x, t)
    else if f.year == t.year then x.year == t.year
    else true
  }

  /** A date text starts with a year, or with a year and a month, exactly when it is of that year or month. */
  lemma {:induction false} DateTextPrefixes(t: Date, x: Date)
    requires Printable(t) && Printable(x)
    ensures Pad4(t.year) + "." <= DateText(x) <==> x.year == t.year
    ensures Pad4(t.year) + "." + Pad2(t.month) + "." <= DateText(x) <==> SameMonth(x, t)
    ensures DateText(t) == DateText(x) <==> t == x
  {
    var s := DateText(x);
    assert s[..4] == Pad4(x.year) && s[4] == '.' && s[5..7] == Pad2(x.month) && s[7] == '.' && s[8..] == Pad2(x.day);
    var u := DateText(t);
    assert u[..4] == Pad4(t.year) && u[5..7] == Pad2(t.month) && u[8..] == Pad2(t.day);
    Pad4Order(t.year, x.year, "", "");
    Pad2Order(t.month, x.month, "", "");
    Pad2Order(t.day, x.day, "", "");
    var p := Pad4(t.year) + ".";
    assert p[..4] == Pad4(t.year);
    var q := Pad4(t.year) + "." + Pad2(t.month) + ".";
    assert q[..4] == Pad4(t.year) && q[5..7] == Pad2(t.month) && |q| == 8;
    if p <= s {
      assert s[..4] == p[..4];
    }
    if q <= s {
      assert s[..4] == q[..4] && s[5..7] == q[5..7];
    }
    if SameMonth(x, t) {
      assert s[..8] == q;
    }
  }

  lemma {:induction false} PartsDiffer(f: Date, t: Date)
    requires Printable(f) && Printable(t)
    ensures Pad4(f.year) == Pad4(t.year) <==> f.year == t.year
    ensures Pad2(f.month) == Pad2(t.month) <==> f.month == t.month
    ensures Parts(f) == Parts(t) <==> f == t
  {
    Pad4Order(f.year, t.year, "", "");
    Pad2Order(f.month, t.month, "", "");
    Pad2Order(f.day, t.day, "", "");
    assert Parts(f)[0] == Pad4(f.year) && Parts(f)[1] == Pad2(f.month) && Parts(f)[2] == Pad2(f.day);
  }

  /** Putting a literal text, perhaps with a star after it, where an index pattern had its star. */
  lemma {:induction false} GlobReplaced(stem: string, a: string, open: bool, rest: string)
    requires '*' !in stem && '*' !in a
    ensures Glob(Replace(stem + "*", "*", a + if open then "*" else ""), stem + rest) <==>
            if open then a <= rest else a == rest
  {
    ReplaceLast(stem, '*', a + if open then "*" else "");
    GlobSameStem(stem, a, open, rest);
  }

  /** The literal text that the date of every kept day starts with. */
  function KeptText(f: Date, t: Date): string
    requires Printable(t)
  {
    if f == t then DateText(t)
    else if SameMonth(f, t) then Pad4(t.year) + "." + Pad2(t.month) + "."
    else if f.year == t.year then Pad4(t.year) + "."
    else ""
  }

  lemma {:induction false} NarrowedText(stem: string, f: Date, t: Date)
    requires '*' !in stem && Printable(f) && Printable(t)
    ensures Narrowed(stem + "*", Parts(f), Parts(t)) ==
            Replace(stem + "*", "*", KeptText(f, t) + if f != t then "*" else "")
  {
    PartsDiffer(f, t);
    if f == t {
      assert Pad4(t.year) + "." + Pad2(t.month) + "." + Pad2(t.day) == DateText(t) + "";
    } else if SameMonth(f, t) {
      assert Pad4(t.year) + "." + Pad2(t.month) + ".*" == Pad4(t.year) + "." + Pad2(t.month) + "." + "*";
    } else if f.year == t.year {
      assert Pad4(t.year) + ".*" == Pad4(t.year) + "." + "*";
    } else {
      ReplaceLast(stem, '*', "*");
      assert "" + "*" == "*";
    }
  }

  lemma {:induction false} KeptTextDecides(f: Date, t: Date, x: Date)
    requires Printable(t) && Printable(x)
    ensures '*' !in KeptText(f, t)
    ensures (if f != t then KeptText(f, t) <= DateText(x) else KeptText(f, t) == DateText(x)) <==> Kept(f, t, x)
  {
    PartsFree(t, '*');
    DateTextPrefixes(t, x);
  }

  /** The narrowed pattern matches a daily index of its family exactly when the day is kept. */
  lemma {:induction false} NarrowingExact(stem: string, f: Date, t: Date, x: Date)
    requires '*' !in stem && Printable(f) && Printable(t) && Printable(x)
    ensures Glob(Narrowed(stem + "*", Parts(f), Parts(t)), stem + DateText(x)) <==> Kept(f, t, x)
  {
    NarrowedText(stem, f, t);
    KeptTextDecides(f, t, x);
    GlobReplaced(stem, KeptText(f, t), f != t, DateText(x));
  }

  /** The text of a time: its date, and a clock part that the narrowing does not look at. */
  function TimeText(seconds: int, clock: string): string
    requires HasDate(seconds)
  {
    IsoDate(DateOf(DayOf(seconds))) + ['T'] + clock
  }

  lemma {:induction false} DaysKept(from_: int, to: int, day: nat)
    requires HasDate(from_) && HasDate(to) && DayOf(from_) <= day <= DayOf(to)
    ensures Printable(DateOf(day)) && Kept(DateOf(DayOf(from_)), DateOf(DayOf(to)), DateOf(day))
  {
    DateOrder(DayOf(from_), day);
    DateOrder(day, DayOf(to));
  }

  /**
   * For every accepted window, every daily index from the day it begins to the day it
   * ends is still matched by the pattern that the request's time texts narrow to.
   */
  lemma {:induction false} NarrowingSound(stem: string, w: Window, fromClock: string, toClock: string, day: nat)
    requires '*' !in stem && w.from_ < w.to && HasDate(w.from_) && HasDate(w.to)
    requires DayOf(w.from_) <= day <= DayOf(w.to)
    ensures DateOf(day).year < 10000
    ensures var f, t := DateParts(TimeText(w.from_, fromClock)), DateParts(TimeText(w.to, toClock));
            |f| == 3 && |t| == 3 && Glob(Narrowed(stem + "*", f, t), stem + DayText(day))
  {
    DaysKept(w.from_, w.to, day);
    DatePartsOfIso(DateOf(DayOf(w.from_)), fromClock);
    DatePartsOfIso(DateOf(DayOf(w.to)), toClock);
    NarrowingExact(stem, DateOf(DayOf(w.from_)), DateOf(DayOf(w.to)), DateOf(day));
  }

  /** Every known index is a family whose days are told apart by the star alone. */
  lemma {:induction false} KnownIndexIsFamily(index: string)
    requires index in INDEXES
    ensures index != "" && '*' !in index[..|index| - 1] && index == index[..|index| - 1] + "*"
  {
  }

  /** A metric without a known index keeps its text. */
  lemma {:induction false} NoKnownIndexUnchanged(metric: string, f: seq<string>, t: seq<string>)
    requires |f| == 3 && |t| == 3
    requires forall i :: 0 <= i < |INDEXES| ==> !Contains(metric, INDEXES[i])
    ensures UpdatedIndex(metric, f, t) == metric
  {
    IndexInNone(metric, INDEXES);
  }

  lemma {:induction false} IndexInNone(metric: string, indexes: seq<string>)
    requires forall i :: 0 <= i < |indexes| ==> !Contains(metric, indexes[i])
    ensures IndexIn(metric, indexes) == ""
  {
    if indexes != [] {
      IndexInNone(metric, indexes[1..]);
    }
  }
}
