/** The string operations that the modelled code uses, with the laws its models need. */
module Text {
  import opened Prelude

  // ----- split -----

  /** The pieces of x + s, given the pieces of s. */
  function Prepend(x: char, c: char, pieces: seq<string>): (r: seq<string>)
    requires |pieces| >= 1
    ensures |r| >= 1
  {
    if x == c then [""] + pieces else [[x] + pieces[0]] + pieces[1..]
  }

  /** All pieces between separators; a string without separators is one piece. */
  function Split(s: string, c: char): (r: seq<string>)
    ensures |r| >= 1
  {
    if s == "" then [""] else Prepend(s[0], c, Split(s[1..], c))
  }

  lemma {:induction false} PrependAppend(x: char, c: char, p: seq<string>, q: seq<string>)
    requires |p| >= 1
    ensures Prepend(x, c, p + q) == Prepend(x, c, p) + q
  {
  }

  lemma {:induction false} SplitAtSeparator(a: string, c: char, b: string)
    ensures Split(a + [c] + b, c) == Split(a, c) + Split(b, c)
  {
    var whole := a + [c] + b;
    if a == "" {
      assert whole[0] == c && whole[1..] == b;
    } else {
      SplitAtSeparator(a[1..], c, b);
      assert whole[0] == a[0] && whole[1..] == a[1..] + [c] + b;
      PrependAppend(a[0], c, Split(a[1..], c), Split(b, c));
    }
  }

  lemma {:induction false} SplitSinglePiece(a: string, c: char)
    requires c !in a
    ensures Split(a, c) == [a]
  {
    if a != "" {
      assert a[0] in a;
      forall x | x in a[1..] ensures x in a {}
      SplitSinglePiece(a[1..], c);
      assert [a[0]] + a[1..] == a;
    }
  }

  // ----- replace -----

  predicate Contains(s: string, t: string) {
    t <= s || (s != "" && Contains(s[1..], t))
  }

  /** Every occurrence from the left, without overlap; an empty needle is replaced only by itself here. */
  function Replace(s: string, needle: string, to: string): string {
    if s == "" || needle == "" then s
    else if needle <= s then to + Replace(s[|needle|..], needle, to)
    else [s[0]] + Replace(s[1..], needle, to)
  }

  lemma {:induction false} ReplaceLast(a: string, c: char, to: string)
    requires c !in a
    ensures Replace(a + [c], [c], to) == a + to
  {
    if a == "" {
      assert a + [c] == [c];
      assert [c][1..] == "";
      assert to + "" == to;
      assert a + to == to;
    } else {
      assert a[0] in a;
      forall x | x in a[1..] ensures x in a {}
      ReplaceLast(a[1..], c, to);
      assert (a + [c])[1..] == a[1..] + [c];
      assert [a[0]] + (a[1..] + to) == a + to;
    }
  }

  lemma {:induction false} ReplaceAbsent(s: string, needle: string, to: string)
    requires needle != "" && needle[|needle| - 1] !in s
    ensures Replace(s, needle, to) == s
  {
    if s != "" {
      if |needle| <= |s| {
        assert s[|needle| - 1] in s;
      }
      forall x | x in s[1..] ensures x in s {}
      ReplaceAbsent(s[1..], needle, to);
      assert [s[0]] + s[1..] == s;
    }
  }

  /** Nothing is replaced across a seam when the right side cannot continue an occurrence. */
  lemma {:induction false} ReplaceConcat(a: string, b: string, needle: string, to: string)
    requires needle != "" && b != ""
    requires (forall j :: 0 < j < |needle| ==> needle[j] != b[0]) || needle[|needle| - 1] !in b
    ensures Replace(a + b, needle, to) == Replace(a, needle, to) + Replace(b, needle, to)
    decreases |a|
  {
    var whole := a + b;
    if a == "" {
      assert whole == b;
    } else {
      OccursInLeft(a, b, needle);
      var n := if needle <= a then |needle| else 1;
      assert whole[n..] == a[n..] + b && whole[0] == a[0];
      ReplaceConcat(a[n..], b, needle, to);
      Regrouped(if needle <= a then to else [a[0]], Replace(a[n..], needle, to), Replace(b, needle, to));
    }
  }

  lemma {:induction false} OccursInLeft(a: string, b: string, needle: string)
    requires needle != "" && a != "" && b != ""
    requires (forall j :: 0 < j < |needle| ==> needle[j] != b[0]) || needle[|needle| - 1] !in b
    ensures needle <= a + b <==> needle <= a
  {
    var whole := a + b;
    if |a| < |needle| <= |whole| {
      assert whole[|a|] == b[0];
      assert whole[|needle| - 1] == b[|needle| - 1 - |a|] && b[|needle| - 1 - |a|] in b;
    } else if |needle| <= |a| {
      assert whole[..|needle|] == a[..|needle|];
    }
  }

  /** A literal text stays, and what is around it is replaced on its own. */
  lemma {:induction false} ReplaceAround(a: string, p: string, b: string, needle: string, to: string)
    requires needle != "" && p != "" && needle[|needle| - 1] !in p && p[|p| - 1] !in needle
    ensures Replace(a + (p + b), needle, to) == Replace(a, needle, to) + (p + Replace(b, needle, to))
  {
    var n := |p| - 1;
    var c := [p[n]];
    assert a + (p + b) == (a + p[..n]) + (c + b);
    ReplaceConcat(a + p[..n], c + b, needle, to);
    assert (c + b)[1..] == b;
    forall x | x in p[..n] ensures x in p {}
    ReplaceAbsent(p[..n], needle, to);
    if n > 0 {
      ReplaceConcat(a, p[..n], needle, to);
    } else {
      assert a + p[..n] == a;
    }
    assert p == p[..n] + c;
  }

  lemma {:induction false} ReplaceBetween(a: string, p: string, b: string, needle: string, to: string)
    requires needle != "" && p != "" && needle[|needle| - 1] !in p && p[|p| - 1] !in needle
    ensures Replace(a + p + b, needle, to) == Replace(a, needle, to) + p + Replace(b, needle, to)
  {
    ReplaceAround(a, p, b, needle, to);
    Regrouped(a, p, b);
    Regrouped(Replace(a, needle, to), p, Replace(b, needle, to));
  }

  /** The same at the end of a text. */
  lemma {:induction false} ReplaceBefore(a: string, p: string, needle: string, to: string)
    requires needle != "" && p != "" && needle[|needle| - 1] !in p
    ensures Replace(a + p, needle, to) == Replace(a, needle, to) + p
  {
    ReplaceConcat(a, p, needle, to);
    ReplaceAbsent(p, needle, to);
  }

  // ----- find, lines and blanks -----

  /** The position of the first occurrence, or -1. */
  function Find(s: string, t: string): (r: int)
    ensures -1 <= r <= |s|
    ensures r == -1 <==> !Contains(s, t)
  {
    if t <= s then 0
    else if s == "" then -1
    else
      var r := Find(s[1..], t);
      if r < 0 then -1 else r + 1
  }

  lemma {:induction false} FindIsFirst(s: string, t: string, j: nat)
    requires Contains(s, t) && j <= Find(s, t)
    ensures t <= s[j..] <==> j == Find(s, t)
  {
    if j == 0 {
      assert s[0..] == s;
    } else {
      FindIsFirst(s[1..], t, j - 1);
      assert s[1..][j - 1..] == s[j..];
    }
  }

  lemma {:induction false} ContainsFits(s: string, t: string)
    requires Contains(s, t)
    ensures |t| <= |s|
  {
    if !(t <= s) {
      ContainsFits(s[1..], t);
    }
  }

  /** What occurs in a text is found at the same place when more text follows. */
  lemma {:induction false} FindInPrefix(h: string, rest: string, t: string)
    requires Contains(h, t)
    ensures Find(h + rest, t) == Find(h, t)
  {
    ContainsFits(h, t);
    assert (h + rest)[..|h|] == h;
    if t <= h {
      assert t <= h + rest;
    } else {
      assert !(t <= h + rest) by {
        assert (h + rest)[..|t|] == h[..|t|];
      }
      FindInPrefix(h[1..], rest, t);
      assert (h + rest)[1..] == h[1..] + rest;
    }
  }

  /** The lines of a text, each with its line feed. */
  function Lines(text: string): seq<string> {
    if text == "" then []
    else if text[0] == '\n' then ["\n"] + Lines(text[1..])
    else
      var rest := Lines(text[1..]);
      if rest == [] then [[text[0]]] else [[text[0]] + rest[0]] + rest[1..]
  }

  predicate IsLine(l: string) {
    l != "" && l[|l| - 1] == '\n' && '\n' !in l[..|l| - 1]
  }

  function Concatenated(ls: seq<string>): string {
    if ls == [] then "" else ls[0] + Concatenated(ls[1..])
  }

  lemma {:induction false} FirstLine(l: string, rest: string)
    requires IsLine(l)
    ensures Lines(l + rest) == [l] + Lines(rest)
  {
    var whole := l + rest;
    assert whole[0] == l[0] && whole[1..] == l[1..] + rest;
    if |l| == 1 {
      assert l == "\n" && whole[1..] == rest;
    } else {
      assert l[0] == l[..|l| - 1][0];
      assert l[1..][..|l| - 2] == l[..|l| - 1][1..];
      FirstLine(l[1..], rest);
      assert [l[0]] + l[1..] == l;
    }
  }

  lemma {:induction false} LinesComeBack(ls: seq<string>)
    requires forall i :: 0 <= i < |ls| ==> IsLine(ls[i])
    ensures Lines(Concatenated(ls)) == ls
  {
    if ls != [] {
      FirstLine(ls[0], Concatenated(ls[1..]));
      LinesComeBack(ls[1..]);
    }
  }

  /** The ASCII characters that stripping takes off. */
  predicate Blank(c: char)
    ensures Blank(c) <==> c in " \t\n\r\U{0b}\U{0c}\U{1c}\U{1d}\U{1e}\U{1f}"
  {
    c == ' ' || '\t' <= c <= '\r' || '\U{1c}' <= c <= '\U{1f}'
  }

  predicate AllBlank(s: string) {
    forall c :: c in s ==> Blank(c)
  }

  // ----- order -----

  /** Comparison of strings by their characters, a proper prefix first. */
  predicate LexLe(a: string, b: string) {
    a == "" || (b != "" && (a[0] < b[0] || (a[0] == b[0] && LexLe(a[1..], b[1..]))))
  }

  lemma {:induction false} LexLePrefix(p: string, a: string, b: string)
    ensures LexLe(p + a, p + b) <==> LexLe(a, b)
  {
    if p == "" {
      assert p + a == a && p + b == b;
    } else {
      LexLePrefix(p[1..], a, b);
      assert (p + a)[1..] == p[1..] + a && (p + b)[1..] == p[1..] + b;
    }
  }

  lemma {:induction false} LexLeTransitive(a: string, b: string, c: string)
    requires LexLe(a, b) && LexLe(b, c)
    ensures LexLe(a, c)
  {
    if a != "" && a[0] == b[0] == c[0] {
      LexLeTransitive(a[1..], b[1..], c[1..]);
    }
  }

  // ----- numbers -----

  function DigitChar(d: nat): char
    requires d < 10
  {
    "0123456789"[d]
  }

  lemma {:induction false} DigitOrder(d: nat, e: nat)
    requires d < 10 && e < 10
    ensures DigitChar(d) < DigitChar(e) <==> d < e
    ensures DigitChar(d) == DigitChar(e) <==> d == e
    ensures '0' <= DigitChar(d) <= '9'
  {
  }

  function Decimal(n: nat): (r: string)
    ensures |r| >= 1 && forall c :: c in r ==> '0' <= c <= '9'
  {
    if n < 10 then [DigitChar(n)] else Decimal(n / 10) + [DigitChar(n % 10)]
  }

  function IntText(n: int): string {
    if n < 0 then "-" + Decimal(-n) else Decimal(n)
  }

  /** The number that a text of digits stands for, the most significant digit first. */
  function ValueOf(digits: string): int {
    if digits == "" then 0
    else 10 * ValueOf(digits[..|digits| - 1]) + (digits[|digits| - 1] as int - '0' as int)
  }

  lemma {:induction false} DecimalValue(n: nat)
    ensures ValueOf(Decimal(n)) == n && (n > 0 ==> Decimal(n)[0] != '0')
  {
    if n < 10 {
      assert Decimal(n)[..0] == "";
    } else {
      DecimalValue(n / 10);
      assert Decimal(n)[..|Decimal(n)| - 1] == Decimal(n / 10);
    }
  }

  /** The text of a number shows its value and its sign, without leading zeros. */
  lemma {:induction false} IntTextShows(n: int)
    ensures n >= 0 ==> ValueOf(IntText(n)) == n
    ensures n < 0 ==> IntText(n)[0] == '-' && ValueOf(IntText(n)[1..]) == -n
    ensures n != 0 ==> IntText(n)[if n < 0 then 1 else 0] != '0'
  {
    DecimalValue(if n < 0 then -n else n);
  }
}
