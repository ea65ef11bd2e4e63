/** The clean-up of daily statistics indexes: what one pass deletes, and the loop that shortens the retention. */
module Retention {
  import opened Prelude
  import opened Text
  import opened Calendar

  const KEEP_AT_LEAST := 5

  // ----- Rows of the index listing -----

  function RStrip(s: string): string {
    if s != "" && Blank(s[|s| - 1]) then RStrip(s[..|s| - 1]) else s
  }

  /** The columns between which a listing shows index names. */
  datatype Columns = Columns(index: int, uuid: int)

  /** The columns are where the listing first mentions them; -1 when it does not. */
  function HeaderColumns(text: string): Columns {
    Columns(Find(text, "index"), Find(text, "uuid"))
  }

  /** A slice bound, counted from the end when it is negative, and never outside the text. */
  function Bound(n: int, length: nat): (b: nat)
    ensures b <= length
  {
    if n < 0 then (if length + n < 0 then 0 else length + n) else if n <= length then n else length
  }

  function Slice(s: string, lo: int, hi: int): string {
    var l, h := Bound(lo, |s|), Bound(hi, |s|);
    if l <= h then s[l..h] else ""
  }

  function IndexName(c: Columns, line: string): string {
    RStrip(Slice(line, c.index, c.uuid))
  }

  lemma {:induction false} RStripPadded(s: string, blanks: string)
    requires AllBlank(blanks) && (s == "" || !Blank(s[|s| - 1]))
    ensures RStrip(s + blanks) == s
    decreases |blanks|
  {
    if blanks == "" {
      assert s + blanks == s;
    } else {
      var n := |blanks| - 1;
      assert blanks[n] in blanks && (s + blanks)[..|s + blanks| - 1] == s + blanks[..n];
      RStripPadded(s, blanks[..n]);
    }
  }

  /** The name of a row is what stands, filled up with blanks, between the two columns. */
  lemma {:induction false} NameIsShown(c: Columns, before: string, name: string, blanks: string, after: string)
    requires c == Columns(|before|, |before| + |name| + |blanks|)
    requires AllBlank(blanks) && (name == "" || !Blank(name[|name| - 1]))
    ensures IndexName(c, before + name + blanks + after) == name
  {
    var line := before + name + blanks + after;
    assert line[c.index..c.uuid] == name + blanks;
    RStripPadded(name, blanks);
  }

  /** What follows the first dash of a name. */
  function AfterDash(name: string): string
    requires '-' in name
  {
    if name[0] == '-' then name[1..] else AfterDash(name[1..])
  }

  predicate IsStatistics(line: string) {
    Contains(line, "statsd")
  }

  predicate RowOk(c: Columns, line: string) {
    IsStatistics(line) ==> '-' in IndexName(c, line)
  }

  /** A statistics row whose date text is not after the given one. */
  predicate Outdated(c: Columns, cutoff: string, line: string)
    requires RowOk(c, line)
    ensures Outdated(c, cutoff, line) ==> Contains(line, "statsd")
    ensures Contains(line, "statsd") ==> (Outdated(c, cutoff, line) <==> LexLe(AfterDash(IndexName(c, line)), cutoff))
  {
    IsStatistics(line) && LexLe(AfterDash(IndexName(c, line)), cutoff)
  }

  predicate RowsOk(c: Columns, lines: seq<string>) {
    forall i :: 0 <= i < |lines| ==> RowOk(c, lines[i])
  }

  function OldNames(c: Columns, cutoff: string, lines: seq<string>): seq<string>
    requires RowsOk(c, lines)
  {
    if lines == [] then []
    else
      var n := |lines| - 1;
      OldNames(c, cutoff, lines[..n]) + if Outdated(c, cutoff, lines[n]) then [IndexName(c, lines[n])] else []
  }

  lemma {:induction false} RowsOkConcat(c: Columns, a: seq<string>, b: seq<string>)
    ensures RowsOk(c, a + b) <==> RowsOk(c, a) && RowsOk(c, b)
  {
    assert forall i :: 0 <= i < |a| ==> (a + b)[i] == a[i];
    assert forall i :: 0 <= i < |b| ==> (a + b)[|a| + i] == b[i];
  }

  lemma {:induction false} OldNamesOneMore(c: Columns, cutoff: string, lines: seq<string>, line: string)
    requires RowsOk(c, lines)
    ensures RowsOk(c, lines + [line]) <==> RowOk(c, line)
    ensures RowOk(c, line) ==>
              OldNames(c, cutoff, lines + [line]) ==
              OldNames(c, cutoff, lines) + if Outdated(c, cutoff, line) then [IndexName(c, line)] else []
  {
    RowsOkConcat(c, lines, [line]);
    assert RowsOk(c, [line]) <==> RowOk(c, [line][0]);
    assert (lines + [line])[..|lines|] == lines;
  }

  method FilterRows(c: Columns, cutoff: string, lines: seq<string>) returns (r: Result<seq<string>>)
    ensures r.Ok? <==> RowsOk(c, lines)
    ensures r.Ok? ==> r.value == OldNames(c, cutoff, lines)
  {
    var l := [];
    var n := 0;
    while n < |lines|
      invariant 0 <= n <= |lines| && RowsOk(c, lines[..n])
      invariant l == OldNames(c, cutoff, lines[..n])
    {
      assert lines[..n + 1] == lines[..n] + [lines[n]];
      OldNamesOneMore(c, cutoff, lines[..n], lines[n]);
      if Contains(lines[n], "statsd") {
        var name := IndexName(c, lines[n]);
        if '-' !in name {
          return Err(Malformed);
        }
        if LexLe(AfterDash(name), cutoff) {
          l := l + [name];
        }
      }
      n := n + 1;
    }
    assert lines[..n] == lines;
    return Ok(l);
  }

  /** The outdated names in a listing; a statistics row without a date stops the search with an error. */
  method FilterOutOldIndexes(cutoff: string, text: string) returns (r: Result<seq<string>>)
    ensures r.Ok? <==> RowsOk(HeaderColumns(text), Lines(text))
    ensures r.Ok? ==> r.value == OldNames(HeaderColumns(text), cutoff, Lines(text))
  {
    var indexStart := Find(text, "index");
    var uuidStart := Find(text, "uuid");
    r := FilterRows(Columns(indexStart, uuidStart), cutoff, Lines(text));
  }

  /** A header that mentions the columns and no statistics. */
  predicate IsHeader(h: string) {
    IsLine(h) && Contains(h, "index") && Contains(h, "uuid") && !IsStatistics(h)
  }

  function Listing(header: string, rows: seq<string>): string {
    header + Concatenated(rows)
  }

  lemma {:induction false} ListingReads(header: string, rows: seq<string>)
    requires IsHeader(header) && forall i :: 0 <= i < |rows| ==> IsLine(rows[i])
    ensures HeaderColumns(Listing(header, rows)) == HeaderColumns(header)
    ensures Lines(Listing(header, rows)) == [header] + rows
  {
    FindInPrefix(header, Concatenated(rows), "index");
    FindInPrefix(header, Concatenated(rows), "uuid");
    FirstLine(header, Concatenated(rows));
    LinesComeBack(rows);
  }

  /** A header adds nothing to the outdated names. */
  lemma {:induction false} HeaderIsNotOld(c: Columns, cutoff: string, header: string, rows: seq<string>)
    requires !IsStatistics(header)
    ensures RowsOk(c, [header] + rows) <==> RowsOk(c, rows)
    ensures RowsOk(c, rows) ==> OldNames(c, cutoff, [header] + rows) == OldNames(c, cutoff, rows)
  {
    RowsOkConcat(c, [header], rows);
    if RowsOk(c, rows) {
      if rows == [] {
        OldNamesOneMore(c, cutoff, [], header);
        assert [] + [header] == [header] + rows;
      } else {
        var n := |rows| - 1;
        assert [header] + rows == [header] + rows[..n] + [rows[n]] && rows == rows[..n] + [rows[n]];
        RowsOkConcat(c, [header], rows[..n]);
        HeaderIsNotOld(c, cutoff, header, rows[..n]);
        OldNamesOneMore(c, cutoff, [header] + rows[..n], rows[n]);
      }
    }
  }

  lemma {:induction false} OldNamesAre(c: Columns, cutoff: string, lines: seq<string>, name: string)
    requires RowsOk(c, lines)
    ensures name in OldNames(c, cutoff, lines) <==>
            exists i :: 0 <= i < |lines| && Outdated(c, cutoff, lines[i]) && IndexName(c, lines[i]) == name
  {
    if lines != [] {
      var n := |lines| - 1;
      OldNamesAre(c, cutoff, lines[..n], name);
      assert forall i :: 0 <= i < n ==> lines[..n][i] == lines[i];
    }
  }

  ghost predicate DistinctNames(c: Columns, lines: seq<string>) {
    forall a, b :: a in lines && b in lines && IndexName(c, a) == IndexName(c, b) ==> a == b
  }

  /** Where names are distinct, a row is named in the result exactly when it is outdated. */
  lemma {:induction false} NamesDecide(c: Columns, cutoff: string, lines: seq<string>)
    requires RowsOk(c, lines) && DistinctNames(c, lines)
    ensures forall l :: l in lines ==> (IndexName(c, l) in OldNames(c, cutoff, lines) <==> Outdated(c, cutoff, l))
  {
    forall l | l in lines
      ensures IndexName(c, l) in OldNames(c, cutoff, lines) <==> Outdated(c, cutoff, l)
    {
      OldNamesAre(c, cutoff, lines, IndexName(c, l));
    }
  }

  // ----- Dates -----

  /** The day that a retention reaches back to has a printable date. */
  predicate HasCutoff(today: nat, days: int) {
    0 <= today - days && DateOf(today - days).year < 10000
  }

  function Cutoff(today: nat, days: int): string
    requires HasCutoff(today, days)
  {
    DayText(today - days)
  }

  lemma {:induction false} CutoffBetween(today: nat, low: int, days: int, high: int)
    requires low <= days <= high && HasCutoff(today, low) && HasCutoff(today, high)
    ensures HasCutoff(today, days)
  {
    DateOrder(today - days, today - low);
  }

  lemma {:induction false} CutoffOrder(today: nat, days: int, fewer: int)
    requires fewer <= days && HasCutoff(today, days) && HasCutoff(today, fewer)
    ensures LexLe(Cutoff(today, days), Cutoff(today, fewer))
  {
    DayTextOrder(today - days, today - fewer);
  }

  lemma {:induction false} LaterOutdatesMore(c: Columns, cutoff: string, later: string, line: string)
    requires RowOk(c, line) && LexLe(cutoff, later) && Outdated(c, cutoff, line)
    ensures Outdated(c, later, line)
  {
    LexLeTransitive(AfterDash(IndexName(c, line)), cutoff, later);
  }

  /** A shorter retention outdates no less. */
  lemma {:induction false} ShorterOutdatesMore(c: Columns, today: nat, days: int, fewer: int, line: string)
    requires RowOk(c, line) && fewer <= days && HasCutoff(today, days) && HasCutoff(today, fewer)
    requires Outdated(c, Cutoff(today, days), line)
    ensures Outdated(c, Cutoff(today, fewer), line)
  {
    CutoffOrder(today, days, fewer);
    LaterOutdatesMore(c, Cutoff(today, days), Cutoff(today, fewer), line);
  }

  predicate IsDated(c: Columns, line: string, family: string, date: string) {
    IsStatistics(line) && '-' !in family && IndexName(c, line) == family + ['-'] + date
  }

  /** The row of a statistics index of a day. */
  predicate IsDaily(c: Columns, line: string, family: string, day: nat) {
    DateOf(day).year < 10000 && IsDated(c, line, family, DayText(day))
  }

  lemma {:induction false} AfterDashOf(family: string, rest: string)
    requires '-' !in family
    ensures '-' in family + ['-'] + rest && AfterDash(family + ['-'] + rest) == rest
  {
    var whole := family + ['-'] + rest;
    assert whole[|family|] == '-';
    if family != "" {
      assert family[0] in family && whole[0] == family[0];
      forall x | x in family[1..] ensures x in family {}
      AfterDashOf(family[1..], rest);
      assert whole[1..] == family[1..] + ['-'] + rest;
    }
  }

  lemma {:induction false} DatedRow(c: Columns, line: string, family: string, date: string, cutoff: string)
    requires IsDated(c, line, family, date)
    ensures RowOk(c, line)
    ensures Outdated(c, cutoff, line) <==> LexLe(date, cutoff)
  {
    AfterDashOf(family, date);
  }

  lemma {:induction false} CutoffDecides(day: nat, today: nat, days: int)
    requires DateOf(day).year < 10000 && HasCutoff(today, days)
    ensures LexLe(DayText(day), Cutoff(today, days)) <==> day <= today - days
  {
    DayTextOrder(day, today - days);
  }

  /** A daily index is outdated exactly when its day is not after today minus the retention. */
  lemma {:induction false} DailyOutdatedIff(c: Columns, line: string, family: string, day: nat, today: nat, days: int)
    requires IsDaily(c, line, family, day) && HasCutoff(today, days)
    ensures RowOk(c, line)
    ensures Outdated(c, Cutoff(today, days), line) <==> day <= today - days
  {
    DatedRow(c, line, family, DayText(day), Cutoff(today, days));
    CutoffDecides(day, today, days);
  }

  // ----- The clean-up -----

  /** The rows after a clean-up: all but the outdated ones, or all when it only emulates. */
  ghost predicate Cleaned(c: Columns, emulate: bool, cutoff: string, before: seq<string>, after: seq<string>)
    requires RowsOk(c, before)
  {
    if emulate then after == before
    else forall l :: l in after <==> l in before && !Outdated(c, cutoff, l)
  }

  lemma {:induction false} RowsStay(c: Columns, before: seq<string>, after: seq<string>)
    requires forall l :: l in after ==> l in before
    requires RowsOk(c, before) && DistinctNames(c, before) && forall i :: 0 <= i < |before| ==> IsLine(before[i])
    ensures RowsOk(c, after) && DistinctNames(c, after) && forall i :: 0 <= i < |after| ==> IsLine(after[i])
  {
    forall i | 0 <= i < |after| ensures RowOk(c, after[i]) && IsLine(after[i]) {
      assert after[i] in before;
    }
  }

  /** A pass with a longer retention before makes no difference. */
  lemma {:induction false} CleanedAgain(c: Columns, emulate: bool, today: nat, days: int, fewer: int,
                     before: seq<string>, mid: seq<string>, after: seq<string>)
    requires RowsOk(c, before) && RowsOk(c, mid)
    requires fewer <= days && HasCutoff(today, days) && HasCutoff(today, fewer)
    requires Cleaned(c, emulate, Cutoff(today, days), before, mid)
    requires Cleaned(c, emulate, Cutoff(today, fewer), mid, after)
    ensures Cleaned(c, emulate, Cutoff(today, fewer), before, after)
  {
    if !emulate {
      forall l | l in before && Outdated(c, Cutoff(today, days), l)
        ensures Outdated(c, Cutoff(today, fewer), l)
      {
        ShorterOutdatesMore(c, today, days, fewer, l);
      }
    }
  }

  /** What a disk usage query answers: the size of the log volume and how full it is. */
  datatype Usage = Usage(storage: int, percent: int)

  function Min(a: int, b: int): int {
    if a <= b then a else b
  }

  /**
   * What sends the clean-up into another pass after pass k: the log volume is above its limit, the
   * database is above its share of the volume as it was at first, and more than five days are kept.
   */
  predicate GoesOn(volume: nat -> Usage, directory: nat -> int, capPercent: int, share: int, initial: int, k: nat)
    requires k > 0
  {
    && volume(k - 1).percent > capPercent
    && directory(k) * 100 > share
    && initial - (k - 1) > 5
  }

  class Cluster {
    const header: string
    const columns := HeaderColumns(header)
    var rows: seq<string>

    constructor (header: string, rows: seq<string>)
      ensures this.header == header && this.rows == rows
    {
      this.header, this.rows := header, rows;
    }

    /** Rows are lines under a header; every statistics row shows a date, and no two show the same index. */
    ghost predicate Valid()
      reads this
    {
      && IsHeader(header) && (forall i :: 0 <= i < |rows| ==> IsLine(rows[i]))
      && RowsOk(columns, rows) && DistinctNames(columns, rows)
    }

    method Delete(name: string)
      modifies `rows
      ensures forall l :: l in rows <==> l in old(rows) && IndexName(columns, l) != name
    {
      var left: seq<string> := [];
      var n := 0;
      while n < |rows|
        invariant 0 <= n <= |rows| && rows == old(rows)
        invariant forall l :: l in left <==> l in rows[..n] && IndexName(columns, l) != name
      {
        if IndexName(columns, rows[n]) != name {
          left := left + [rows[n]];
        }
        assert rows[..n + 1] == rows[..n] + [rows[n]];
        n := n + 1;
      }
      assert rows[..n] == rows;
      rows := left;
    }

    /** One pass deletes exactly the outdated indexes; emulating deletes nothing. */
    method RemoveOldIndexes(today: nat, days: int, emulate: bool)
      requires Valid() && HasCutoff(today, days)
      modifies `rows
      ensures Valid() && Cleaned(columns, emulate, Cutoff(today, days), old(rows), rows)
    {
      var cutoff := Cutoff(today, days);
      var names := OutdatedNames(cutoff);
      DeleteAll(names, emulate);
      RowsStay(columns, old(rows), rows);
    }

    /** A pass with a shorter retention, after one that began with the given rows. */
    method RemoveMore(ghost before: seq<string>, today: nat, days: int, fewer: int, emulate: bool)
      requires Valid() && fewer <= days && HasCutoff(today, days) && HasCutoff(today, fewer)
      requires RowsOk(columns, before) && Cleaned(columns, emulate, Cutoff(today, days), before, rows)
      modifies `rows
      ensures Valid() && Cleaned(columns, emulate, Cutoff(today, fewer), before, rows)
    {
      RemoveOldIndexes(today, fewer, emulate);
      CleanedAgain(columns, emulate, today, days, fewer, before, old(rows), rows);
    }

    /** The listing of a valid cluster names exactly its outdated rows. */
    method OutdatedNames(cutoff: string) returns (names: seq<string>)
      requires Valid()
      ensures forall l :: l in rows ==> (IndexName(columns, l) in names <==> Outdated(columns, cutoff, l))
    {
      ListingReads(header, rows);
      HeaderIsNotOld(columns, cutoff, header, rows);
      var r := FilterOutOldIndexes(cutoff, Listing(header, rows));
      names := r.value;
      NamesDecide(columns, cutoff, rows);
    }

    method DeleteAll(names: seq<string>, emulate: bool)
      modifies `rows
      ensures emulate ==> rows == old(rows)
      ensures !emulate ==> forall l :: l in rows <==> l in old(rows) && IndexName(columns, l) !in names
    {
      var n := 0;
      while n < |names|
        invariant 0 <= n <= |names|
        invariant emulate ==> rows == old(rows)
        invariant !emulate ==> forall l :: l in rows <==> l in old(rows) && IndexName(columns, l) !in names[..n]
      {
        if !emulate {
          Delete(names[n]);
        }
        assert names[..n + 1] == names[..n] + [names[n]];
        n := n + 1;
      }
      assert names[..n] == names;
    }

    /**
     * Cleans once, and then with one day less at a time while the log volume is too full.
     * However the disk behaves, the passes are bounded, the data of the last days is kept, and
     * what is deleted in all is exactly what the last pass's retention outdates.
     */
    method ProcessCleanup(today: nat, initial: int, capPercent: int, storagePercent: int,
                          volume: nat -> Usage, directory: nat -> int, emulate: bool)
      returns (passes: nat, days: int)
      requires Valid() && HasCutoff(today, initial) && HasCutoff(today, Min(initial, KEEP_AT_LEAST))
      modifies `rows
      ensures 1 <= passes <= (if initial - 4 > 1 then initial - 4 else 1)
      ensures days == initial - (passes - 1) && Min(initial, KEEP_AT_LEAST) <= days <= initial && HasCutoff(today, days)
      ensures Valid() && Cleaned(columns, emulate, Cutoff(today, days), old(rows), rows)
      ensures var share := volume(0).storage * storagePercent;
              (forall k :: 1 <= k < passes ==> GoesOn(volume, directory, capPercent, share, initial, k)) &&
              !GoesOn(volume, directory, capPercent, share, initial, passes)
    {
      days := initial;
      RemoveOldIndexes(today, days, emulate);
      passes := 1;
      var usage := volume(0);
      var capping := usage.storage * storagePercent;
      while usage.percent > capPercent
        invariant 1 <= passes && days == initial - (passes - 1)
        invariant Min(initial, KEEP_AT_LEAST) <= days <= initial && HasCutoff(today, days)
        invariant Valid() && Cleaned(columns, emulate, Cutoff(today, days), old(rows), rows)
        invariant usage == volume(passes - 1) && capping == volume(0).storage * storagePercent
        invariant forall k :: 1 <= k < passes ==> GoesOn(volume, directory, capPercent, capping, initial, k)
        decreases days - KEEP_AT_LEAST
      {
        if directory(passes) * 100 <= capping || days <= KEEP_AT_LEAST {
          break;
        }
        assert GoesOn(volume, directory, capPercent, capping, initial, passes);
        var fewer := days - 1;
        CutoffBetween(today, Min(initial, KEEP_AT_LEAST), fewer, initial);
        RemoveMore(old(rows), today, days, fewer, emulate);
        days := fewer;
        usage := volume(passes);
        passes := passes + 1;
      }
    }

    /** With an initial retention of at least five days, an index of the last five days is never deleted. */
    method CleanupKeepsRecent(today: nat, initial: int, capPercent: int, storagePercent: int,
                              volume: nat -> Usage, directory: nat -> int, line: string, family: string, day: nat)
      requires Valid() && HasCutoff(today, initial) && HasCutoff(today, Min(initial, KEEP_AT_LEAST))
      requires initial >= KEEP_AT_LEAST && line in rows && IsDaily(columns, line, family, day)
      requires day > today - KEEP_AT_LEAST
      modifies `rows
      ensures Valid() && line in rows
    {
      var _, days := ProcessCleanup(today, initial, capPercent, storagePercent, volume, directory, false);
      DailyOutdatedIff(columns, line, family, day, today, days);
    }
  }
}
