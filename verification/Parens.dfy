/** Parenthesis balance of a text, by its net depth and its lowest depth. */
module Parens {
  import opened Text

  function Weight(c: char): int {
    if c == '(' then 1 else if c == ')' then -1 else 0
  }

  /** Opening minus closing parentheses. */
  function Depth(s: string): int {
    if s == "" then 0 else Weight(s[0]) + Depth(s[1..])
  }

  function Min(a: int, b: int): int {
    if a <= b then a else b
  }

  /** The lowest depth that any prefix reaches. */
  function Low(s: string): (r: int)
    ensures r <= 0 && r <= Depth(s)
  {
    if s == "" then 0 else Min(0, Weight(s[0]) + Low(s[1..]))
  }

  predicate Balanced(s: string) {
    Depth(s) == 0 && Low(s) == 0
  }

  predicate Plain(s: string) {
    '(' !in s && ')' !in s
  }

  lemma {:induction false} Concat(a: string, b: string)
    ensures Depth(a + b) == Depth(a) + Depth(b)
    ensures Low(a + b) == Min(Low(a), Depth(a) + Low(b))
  {
    if a == "" {
      assert a + b == b;
    } else {
      Concat(a[1..], b);
      assert (a + b)[0] == a[0] && (a + b)[1..] == a[1..] + b;
    }
  }

  lemma {:induction false} PlainIsBalanced(s: string)
    requires Plain(s)
    ensures Balanced(s)
  {
    if s != "" {
      assert s[0] in s;
      forall x | x in s[1..] ensures x in s {}
      PlainIsBalanced(s[1..]);
    }
  }

  lemma {:induction false} BalancedConcat(a: string, b: string)
    requires Balanced(a) && Balanced(b)
    ensures Balanced(a + b)
  {
    Concat(a, b);
  }

  lemma {:induction false} SingleParens()
    ensures Depth("(") == 1 && Low("(") == 0 && Depth(")") == -1 && Low(")") == -1
  {
    assert "("[1..] == "" && ")"[1..] == "";
  }

  /** ( a ) then b, where b is balanced: the depth of a carries over, and so does its balance. */
  lemma {:induction false} Enclosed(a: string, b: string)
    requires Balanced(b)
    ensures Depth("(" + a + ")" + b) == Depth(a)
    ensures Balanced(a) ==> Balanced("(" + a + ")" + b)
  {
    SingleParens();
    Concat("(", a);
    Concat("(" + a, ")");
    Concat("(" + a + ")", b);
  }

  /** A text in front of a last closing parenthesis keeps depth and balance. */
  lemma {:induction false} BeforeLast(a: string, t: string)
    requires Balanced(t)
    ensures Depth(a + t + ")") == Depth(a + ")")
    ensures Balanced(a + ")") ==> Balanced(a + t + ")")
  {
    SingleParens();
    Concat(a, ")");
    Concat(a, t);
    Concat(a + t, ")");
  }

  /** Replacing a text without parentheses by another one changes neither depth nor lowest depth. */
  lemma {:induction false} ReplacePlain(s: string, needle: string, to: string)
    requires Plain(needle) && Plain(to)
    ensures Depth(Replace(s, needle, to)) == Depth(s) && Low(Replace(s, needle, to)) == Low(s)
    decreases |s|
  {
    if s == "" || needle == "" {
    } else if needle <= s {
      var rest := s[|needle|..];
      ReplacePlain(rest, needle, to);
      assert s == needle + rest;
      Concat(needle, rest);
      Concat(to, Replace(rest, needle, to));
      PlainIsBalanced(needle);
      PlainIsBalanced(to);
    } else {
      var rest := Replace(s[1..], needle, to);
      ReplacePlain(s[1..], needle, to);
      assert ([s[0]] + rest)[1..] == rest;
    }
  }
}
