/** Reading a compiled query from left to right gives back the nodes of its rule in post-order. */
module TimelionReader {
  import opened Prelude
  import opened Text
  import opened Timelion
  import opened TimelionProofs
  import opened TimelionText

  // ----- The reader -----

  /** What stands before the first occurrence of a separator, and what follows it. */
  function Cut(s: string, sep: string): (r: Option<(string, string)>)
    ensures r.Some? ==> |r.value.1| <= |s|
  {
    var n := Find(s, sep);
    if n < 0 || n + |sep| > |s| then None else Some((s[..n], s[n + |sep|..]))
  }

  /** The four fields of a time series, and the text after the parenthesis of its processing function. */
  function ReadFields(s: string, processing: string): (r: Option<(Query, string)>)
    ensures r.Some? ==> |r.value.1| <= |s|
  {
    var metric := Cut(s, ", timefield=");
    if metric.None? then None else
    var timestamp := Cut(metric.value.1, ", index=");
    if timestamp.None? then None else
    var index := Cut(timestamp.value.1, ", metric=");
    if index.None? then None else
    var aggregation := Cut(index.value.1, ")." + processing + "(");
    if aggregation.None? then None else
    Some((Query(metric.value.0, timestamp.value.0, index.value.0, aggregation.value.0), aggregation.value.1))
  }

  predicate IsParen(c: char) {
    c == '(' || c == ')'
  }

  function ToParen(s: string): (n: nat)
    ensures n <= |s|
  {
    if s == "" || IsParen(s[0]) then 0 else 1 + ToParen(s[1..])
  }

  function ReadTokens(s: string, processing: string): seq<Token>
    decreases |s|
  {
    if s == "" then []
    else if IsParen(s[0]) || s[0] == ',' then ReadTokens(s[1..], processing)
    else if ".es(q=" <= s then
      var r := ReadFields(s[6..], processing);
      if r.None? then [] else [Fragment(r.value.0)] + ReadTokens(r.value.1, processing)
    else if ".sum(" <= s then [Call("sum")] + ReadTokens(s[5..], processing)
    else if ".divide(" <= s then [Call("divide")] + ReadTokens(s[8..], processing)
    else [Argument(s[..ToParen(s)])] + ReadTokens(s[ToParen(s)..], processing)
  }

  // ----- What comes back -----

  /** The separator does not begin in the text before it. */
  predicate EndsAt(text: string, sep: string) {
    Find(text + sep, sep) == |text|
  }

  /** No field runs into the text that follows it in the query. */
  predicate Legible(q: Query, processing: string) {
    && EndsAt(q.metric, ", timefield=") && EndsAt(q.timestamp, ", index=") && EndsAt(q.index, ", metric=")
    && EndsAt(q.aggregation, ")." + processing + "(")
  }

  /** Arguments that follow one another run together into one. */
  function Merged(ts: seq<Token>): seq<Token>
    decreases |ts|
  {
    if ts == [] then []
    else if ts[0].Argument? && |ts| > 1 && ts[1].Argument? then
      Merged([Argument(ts[0].text + ts[1].text)] + ts[2..])
    else [ts[0]] + Merged(ts[1..])
  }

  predicate IsLiteral(text: string) {
    text != "" && text[0] != ',' && text[0] != '.' && forall c :: c in text ==> !IsParen(c)
  }

  predicate Readable(t: Token, processing: string) {
    match t
    case Fragment(q) => Legible(q, processing)
    case Argument(text) => IsLiteral(text)
    case Call(name) => name == "sum" || name == "divide"
  }

  predicate AllReadable(ts: seq<Token>, processing: string) {
    forall i :: 0 <= i < |ts| ==> Readable(ts[i], processing)
  }

  lemma {:induction false} CutAt(text: string, sep: string, rest: string)
    requires EndsAt(text, sep)
    ensures Cut(text + sep + rest, sep) == Some((text, rest))
  {
    FindInPrefix(text + sep, rest, sep);
    var s := text + sep + rest;
    assert s[..|text|] == text && s[|text| + |sep|..] == rest;
  }

  lemma {:induction false} FieldsReadBack(q: Query, processing: string, rest: string)
    requires Legible(q, processing)
    ensures ReadFields(q.metric + ", timefield=" + (q.timestamp + ", index=" + (q.index + ", metric="
                       + (q.aggregation + (")." + processing + "(") + rest))), processing) == Some((q, rest))
  {
    var r3 := q.aggregation + (")." + processing + "(") + rest;
    var r2 := q.index + ", metric=" + r3;
    var r1 := q.timestamp + ", index=" + r2;
    CutAt(q.metric, ", timefield=", r1);
    CutAt(q.timestamp, ", index=", r2);
    CutAt(q.index, ", metric=", r3);
    CutAt(q.aggregation, ")." + processing + "(", rest);
  }

  lemma {:induction false} FragmentParts(q: Query, processing: string, rest: string)
    ensures FragmentText(q, processing) + "(" + rest ==
            ".es(q=" + (q.metric + ", timefield=" + (q.timestamp + ", index=" + (q.index + ", metric="
                        + (q.aggregation + (")." + processing + "(") + rest))))
  {
    var r3 := q.aggregation + (")." + processing + "(") + rest;
    assert FragmentText(q, processing) + "(" + rest ==
           ".es(q=" + q.metric + ", timefield=" + q.timestamp + ", index=" + q.index + ", metric=" + r3;
  }

  lemma {:induction false} ReadMarked(fields: string, q: Query, processing: string, rest: string)
    requires ReadFields(fields, processing) == Some((q, rest))
    ensures ReadTokens(".es(q=" + fields, processing) == [Fragment(q)] + ReadTokens(rest, processing)
  {
    var s := ".es(q=" + fields;
    assert s[0] == '.' && s[6..] == fields;
  }

  lemma {:induction false} ReadFragment(q: Query, processing: string, rest: string)
    requires Legible(q, processing)
    ensures ReadTokens(FragmentText(q, processing) + "(" + rest, processing) ==
            [Fragment(q)] + ReadTokens(rest, processing)
  {
    FragmentParts(q, processing, rest);
    FieldsReadBack(q, processing, rest);
    ReadMarked(q.metric + ", timefield=" + (q.timestamp + ", index=" + (q.index + ", metric="
               + (q.aggregation + (")." + processing + "(") + rest))), q, processing, rest);
  }

  lemma {:induction false} ReadCall(name: string, processing: string, rest: string)
    requires name == "sum" || name == "divide"
    ensures ReadTokens(")." + name + "(" + rest, processing) == [Call(name)] + ReadTokens(rest, processing)
  {
    if name == "sum" {
      assert ")." + name + "(" + rest == [')'] + (".sum(" + rest);
      Skip(')', ".sum(" + rest, processing);
      ReadSum(rest, processing);
    } else {
      assert ")." + name + "(" + rest == [')'] + (".divide(" + rest);
      Skip(')', ".divide(" + rest, processing);
      ReadDivide(rest, processing);
    }
  }

  lemma {:induction false} ReadSum(rest: string, processing: string)
    ensures ReadTokens(".sum(" + rest, processing) == [Call("sum")] + ReadTokens(rest, processing)
  {
    var s := ".sum(" + rest;
    assert s[5..] == rest && s[1] == 's' && ".es(q="[1] == 'e';
  }

  lemma {:induction false} ReadDivide(rest: string, processing: string)
    ensures ReadTokens(".divide(" + rest, processing) == [Call("divide")] + ReadTokens(rest, processing)
  {
    var s := ".divide(" + rest;
    assert s[8..] == rest && s[1] == 'd' && ".es(q="[1] == 'e' && ".sum("[1] == 's';
  }

  lemma {:induction false} Skip(c: char, s: string, processing: string)
    requires IsParen(c) || c == ','
    ensures ReadTokens([c] + s, processing) == ReadTokens(s, processing)
  {
    assert ([c] + s)[1..] == s;
  }

  lemma {:induction false} ToParenIs(text: string, rest: string)
    requires forall c :: c in text ==> !IsParen(c)
    ensures ToParen(text + ")" + rest) == |text|
  {
    var s := text + ")" + rest;
    if text != "" {
      assert text[0] in text && s[0] == text[0] && s[1..] == text[1..] + ")" + rest;
      forall c | c in text[1..] ensures c in text {}
      ToParenIs(text[1..], rest);
    }
  }

  lemma {:induction false} ReadArgument(text: string, processing: string, rest: string)
    requires IsLiteral(text)
    ensures ReadTokens(text + ")" + rest, processing) == [Argument(text)] + ReadTokens(rest, processing)
  {
    var s := text + ")" + rest;
    ToParenIs(text, rest);
    assert s[0] == text[0] && text[0] in text;
    assert s[..|text|] == text && s[|text|..] == [')'] + rest;
    Skip(')', rest, processing);
  }

  lemma {:induction false} ReadOpened(n: nat, s: string, processing: string)
    ensures ReadTokens(Opened(n) + s, processing) == ReadTokens(s, processing)
  {
    if n == 0 {
      assert Opened(n) + s == s;
    } else {
      assert Opened(n) + s == ['('] + (Opened(n - 1) + s);
      Skip('(', Opened(n - 1) + s, processing);
      ReadOpened(n - 1, s, processing);
    }
  }

  lemma {:induction false} ReadClosing(ts: seq<Token>, s: string, processing: string)
    ensures ReadTokens(Closing(ts) + s, processing) == ReadTokens(s, processing)
  {
    if Closing(ts) == ")" {
      Skip(')', s, processing);
    } else {
      assert "" + s == s;
    }
  }

  /** Two arguments in a row are written as one. */
  lemma {:induction false} EmitMerged(a: string, b: string, rest: seq<Token>, first: bool, processing: string)
    ensures Emit([Argument(a), Argument(b)] + rest, first, processing) ==
            Emit([Argument(a + b)] + rest, first, processing)
  {
    var two, one := [Argument(a), Argument(b)] + rest, [Argument(a + b)] + rest;
    assert two[1..] == [Argument(b)] + rest && two[1..][1..] == rest && one[1..] == rest;
    assert Emit(two[1..], false, processing) == b + Closing(rest) + Emit(rest, false, processing);
    Regrouped(a, b + Closing(rest), Emit(rest, false, processing));
    Regrouped(a, b, Closing(rest));
    assert a + "" == a;
  }

  lemma {:induction false} ReadOne(ts: seq<Token>, first: bool, processing: string)
    requires ts != [] && AllReadable(ts, processing)
    requires !(ts[0].Argument? && |ts| > 1 && ts[1].Argument?)
    ensures ReadTokens(Emit(ts, first, processing), processing) ==
            [ts[0]] + ReadTokens(Emit(ts[1..], false, processing), processing)
  {
    var rest := Emit(ts[1..], false, processing);
    var closed := Closing(ts[1..]) + rest;
    ReadClosing(ts[1..], rest, processing);
    assert Readable(ts[0], processing);
    Regrouped(Own(ts[0], first, processing), Closing(ts[1..]), rest);
    match ts[0]
    case Fragment(q) =>
      if first {
        ReadFragment(q, processing, closed);
      } else {
        ReadLaterFragment(q, processing, closed);
      }
    case Call(name) => ReadCall(name, processing, closed);
    case Argument(text) => ReadArgument(text, processing, rest);
  }

  lemma {:induction false} ReadLaterFragment(q: Query, processing: string, rest: string)
    requires Legible(q, processing)
    ensures ReadTokens("),(" + FragmentText(q, processing) + "()" + rest, processing) ==
            [Fragment(q)] + ReadTokens(rest, processing)
  {
    var s := FragmentText(q, processing) + "(" + (")" + rest);
    assert "),(" + FragmentText(q, processing) + "()" + rest == [')'] + ([','] + (['('] + s));
    Skip(')', [','] + (['('] + s), processing);
    Skip(',', ['('] + s, processing);
    Skip('(', s, processing);
    ReadFragment(q, processing, ")" + rest);
    Skip(')', rest, processing);
  }

  lemma {:induction false} ReadEmitted(ts: seq<Token>, first: bool, processing: string)
    requires AllReadable(ts, processing)
    ensures ReadTokens(Emit(ts, first, processing), processing) == Merged(ts)
    decreases |ts|
  {
    if ts != [] {
      if ts[0].Argument? && |ts| > 1 && ts[1].Argument? {
        var a, b := ts[0].text, ts[1].text;
        assert Readable(ts[0], processing) && Readable(ts[1], processing);
        assert ts == [Argument(a), Argument(b)] + ts[2..];
        EmitMerged(a, b, ts[2..], first, processing);
        ReadEmitted([Argument(a + b)] + ts[2..], first, processing);
      } else {
        ReadOne(ts, first, processing);
        ReadEmitted(ts[1..], false, processing);
      }
    }
  }

  // ----- Rules -----

  predicate AllLegible(qs: seq<Query>, processing: string) {
    forall i :: 0 <= i < |qs| ==> Legible(qs[i], processing)
  }

  lemma {:induction false} NodeReadable(node: Node, processing: string)
    requires AllLegible(NodeQueries(node), processing)
    ensures AllReadable(NodeTokens(node), processing)
    decreases node, 0
  {
    match node
    case Operator(val, children) =>
      if val in METRIC_SET { RuleReadable(children, processing); }
    case Number(n) =>
      var digits := Decimal(if n < 0 then -n else n);
      assert digits[0] in digits && IsLiteral(IntText(n));
    case Leaf(q) => assert NodeQueries(node)[0] == q;
    case Name(_) =>
  }

  lemma {:induction false} RuleReadable(nodes: seq<Node>, processing: string)
    requires AllLegible(Queries(nodes), processing)
    ensures AllReadable(Tokens(nodes), processing)
    decreases nodes, 1
  {
    if nodes != [] {
      var first, rest := NodeQueries(nodes[0]), Queries(nodes[1..]);
      assert forall i :: 0 <= i < |first| ==> (first + rest)[i] == first[i];
      assert forall i :: 0 <= i < |rest| ==> (first + rest)[|first| + i] == rest[i];
      NodeReadable(nodes[0], processing);
      RuleReadable(nodes[1..], processing);
    }
  }

  /**
   * Read from left to right, the compiled query shows every node of the rule in post-order: each
   * series with its four fields, `.sum(` for "+" and `.divide(` for "/", and numbers and `${interval}`
   * as arguments, where arguments that follow one another run together.
   */
  lemma {:induction false} CompiledReadsBack(nodes: seq<Node>, processing: string)
    requires Known(nodes) && AllLegible(Queries(nodes), processing)
    ensures Compile(nodes, processing, "").Ok?
    ensures ReadTokens(Compile(nodes, processing, "").value, processing) == Merged(Tokens(nodes))
  {
    var ts := Tokens(nodes);
    CompiledIs(nodes, processing);
    RuleReadable(nodes, processing);
    ReadEmitted(ts, true, processing);
    ReadOpened(Openings(ts, true), Emit(ts, true, processing), processing);
  }

  predicate ArgumentsApart(ts: seq<Token>) {
    forall i :: 0 < i < |ts| ==> !(ts[i - 1].Argument? && ts[i].Argument?)
  }

  lemma {:induction false} ApartNext(ts: seq<Token>)
    requires ts != []
    ensures ArgumentsApart(ts) <==>
            !(ts[0].Argument? && |ts| > 1 && ts[1].Argument?) && ArgumentsApart(ts[1..])
  {
    var rest := ts[1..];
    if ArgumentsApart(ts) {
      forall i | 0 < i < |rest| ensures !(rest[i - 1].Argument? && rest[i].Argument?) {
        assert !(ts[i].Argument? && ts[i + 1].Argument?);
      }
    } else {
      var i :| 0 < i < |ts| && ts[i - 1].Argument? && ts[i].Argument?;
      if i > 1 {
        assert rest[i - 2].Argument? && rest[i - 1].Argument?;
      }
    }
  }

  lemma {:induction false} MergedIff(ts: seq<Token>)
    ensures |Merged(ts)| <= |ts|
    ensures Merged(ts) == ts <==> ArgumentsApart(ts)
    decreases |ts|
  {
    if ts != [] {
      ApartNext(ts);
      if ts[0].Argument? && |ts| > 1 && ts[1].Argument? {
        MergedIff([Argument(ts[0].text + ts[1].text)] + ts[2..]);
      } else {
        MergedIff(ts[1..]);
      }
    }
  }

  /** So a rule's nodes all come back exactly when no two literals follow one another. */
  lemma {:induction false} RuleComesBackIff(nodes: seq<Node>, processing: string)
    requires Known(nodes) && AllLegible(Queries(nodes), processing)
    ensures Compile(nodes, processing, "").Ok?
    ensures ReadTokens(Compile(nodes, processing, "").value, processing) == Tokens(nodes) <==>
            ArgumentsApart(Tokens(nodes))
  {
    CompiledReadsBack(nodes, processing);
    MergedIff(Tokens(nodes));
  }

  lemma {:induction false} ArgumentsRunTogether(output: string, a: string, b: string)
    ensures WithArgument(WithArgument(output, a), b) == WithArgument(output, a + b)
  {
    assert DropLast(WithArgument(output, a)) == DropLast(output) + a;
    Regrouped(DropLast(output), a, b);
  }

  lemma {:induction false} LastNumber(n: int, processing: string, output: string)
    ensures Compile([Number(n)], processing, output) == Ok(WithArgument(output, IntText(n)))
  {
    assert [Number(n)][1..] == [];
  }

  lemma {:induction false} TwoNumbers(a: int, b: int, processing: string, output: string)
    ensures Compile([Number(a), Number(b)], processing, output) == Ok(WithArgument(output, IntText(a) + IntText(b)))
  {
    assert [Number(a), Number(b)][1..] == [Number(b)];
    LastNumber(b, processing, WithArgument(output, IntText(a)));
    ArgumentsRunTogether(output, IntText(a), IntText(b));
  }

  /** Two rules that do not compile apart: the arguments 5 and 7, and the argument 57. */
  lemma {:induction false} LiteralsRunTogether(processing: string, output: string)
    ensures Compile([Number(5), Number(7)], processing, output) == Compile([Number(57)], processing, output)
  {
    TwoNumbers(5, 7, processing, output);
    LastNumber(57, processing, output);
    assert IntText(57) == Decimal(5) + [DigitChar(7)] && IntText(5) == "5" && IntText(7) == "7";
    assert "5" + "7" == "57";
  }
}
