/**
 * The compiled query, character by character: a rule's nodes in post-order, written from left
 * to right in one pass, and how that text reads back as the nodes.
 */
module TimelionText {
  import opened Prelude
  import opened Text
  import opened Timelion
  import opened TimelionProofs

  // ----- Post-order -----

  /** What the nodes of a rule stand for in the text: a time series, a literal argument, or a call. */
  datatype Token = Fragment(query: Query) | Argument(text: string) | Call(name: string)

  function NodeTokens(node: Node): seq<Token>
    decreases node, 0
  {
    match node
    case Operator(val, children) =>
      if val == "+" then Tokens(children) + [Call("sum")]
      else if val == "/" then Tokens(children) + [Call("divide")]
      else [Argument("${interval}")]
    case Name(_) => [Argument("${interval}")]
    case Number(n) => [Argument(IntText(n))]
    case Leaf(q) => [Fragment(q)]
  }

  /** Children come before their operator. */
  function Tokens(nodes: seq<Node>): seq<Token>
    decreases nodes, 1
  {
    if nodes == [] then [] else NodeTokens(nodes[0]) + Tokens(nodes[1..])
  }

  // ----- Left to right -----

  function FragmentText(q: Query, processing: string): string {
    ".es(q=" + q.metric + ", timefield=" + q.timestamp + ", index=" + q.index + ", metric=" + q.aggregation
    + ")." + processing
  }

  /** A token without its closing parenthesis. */
  function Own(t: Token, first: bool, processing: string): string {
    match t
    case Fragment(q) => if first then FragmentText(q, processing) + "(" else "),(" + FragmentText(q, processing) + "()"
    case Argument(text) => text
    case Call(name) => ")." + name + "("
  }

  /** A token stays open as long as arguments follow. */
  function Closing(rest: seq<Token>): string {
    if rest != [] && rest[0].Argument? then "" else ")"
  }

  function Emit(ts: seq<Token>, first: bool, processing: string): (r: string)
    ensures ts != [] ==> r != ""
  {
    if ts == [] then ""
    else Own(ts[0], first, processing) + Closing(ts[1..]) + Emit(ts[1..], false, processing)
  }

  /** How many parentheses are open before the first token: one for each call and each series but the first token. */
  function Openings(ts: seq<Token>, first: bool): nat {
    if ts == [] then 0
    else (if ts[0].Call? || (ts[0].Fragment? && !first) then 1 else 0) + Openings(ts[1..], false)
  }

  function Opened(n: nat): string {
    seq(n, _ => '(')
  }

  function Line(ts: seq<Token>, processing: string): string {
    Opened(Openings(ts, true)) + Emit(ts, true, processing)
  }

  // ----- Adding a token at the end -----

  lemma {:induction false} FieldsText(q: Query)
    ensures ".es(q=" + Fields(q) ==
            ".es(q=" + q.metric + ", timefield=" + q.timestamp + ", index=" + q.index + ", metric=" + q.aggregation
  {
    Regrouped(q.index, ", metric=", q.aggregation);
    Regrouped(q.timestamp, ", index=", q.index + ", metric=" + q.aggregation);
  }

  lemma {:induction false} QueryTextIs(q: Query, processing: string)
    ensures QueryText(q, processing) == FragmentText(q, processing) + "()"
  {
    FieldsText(q);
    assert MARKER + (Fields(q) + (")." + (processing + "("))) + ")" == MARKER + Fields(q) + ")." + processing + "()";
  }

  lemma {:induction false} OpeningsNext(ts: seq<Token>, t: Token, first: bool)
    ensures Openings(ts + [t], first) ==
            Openings(ts, first) + if t.Call? || (t.Fragment? && !(first && ts == [])) then 1 else 0
  {
    if ts == [] {
      assert ts + [t] == [t];
    } else {
      OpeningsNext(ts[1..], t, false);
      assert (ts + [t])[1..] == ts[1..] + [t];
    }
  }

  /** An argument goes before the last parenthesis. */
  lemma {:induction false} EmitArgument(ts: seq<Token>, first: bool, processing: string, text: string)
    ensures Emit(ts + [Argument(text)], first, processing) == DropLast(Emit(ts, first, processing)) + text + ")"
  {
    var whole := ts + [Argument(text)];
    if ts == [] {
      assert whole == [Argument(text)];
      assert Emit(whole, first, processing) == text + ")" + "";
    } else {
      EmitArgument(ts[1..], false, processing, text);
      assert whole[1..] == ts[1..] + [Argument(text)];
      EmitArgumentStep(Own(ts[0], first, processing), Closing(ts[1..]), Emit(ts[1..], false, processing), text,
                       ts[1..] == []);
    }
  }

  lemma {:induction false} EmitArgumentStep(own: string, closing: string, rest: string, text: string, last: bool)
    requires last ==> closing == ")" && rest == ""
    requires !last ==> rest != ""
    ensures DropLast(own + closing + rest) + text + ")" ==
            own + (if last then "" else closing) + (DropLast(rest) + text + ")")
  {
    if last {
      assert own + closing + rest == own + ")";
    } else {
      assert DropLast(own + closing + rest) == own + closing + DropLast(rest);
    }
  }

  /** Any other token goes after everything before it. */
  lemma {:induction false} EmitOther(ts: seq<Token>, first: bool, processing: string, t: Token)
    requires !t.Argument?
    ensures Emit(ts + [t], first, processing) ==
            Emit(ts, first, processing) + (Own(t, first && ts == [], processing) + ")")
  {
    var whole := ts + [t];
    if ts == [] {
      assert whole == [t];
      assert Emit(whole, first, processing) == Own(t, first, processing) + ")" + "";
    } else {
      EmitOther(ts[1..], false, processing, t);
      assert whole[1..] == ts[1..] + [t];
      Regrouped(Own(ts[0], first, processing) + Closing(ts[1..]), Emit(ts[1..], false, processing),
                Own(t, false, processing) + ")");
    }
  }

  lemma {:induction false} OpenedOneMore(n: nat, s: string)
    ensures "(" + (Opened(n) + s) == Opened(n + 1) + s
  {
    assert "(" + Opened(n) == Opened(n + 1);
  }

  lemma {:induction false} DropLastAfter(a: string, b: string)
    requires b != ""
    ensures DropLast(a + b) == a + DropLast(b)
  {
  }

  lemma {:induction false} LineEmpty(ts: seq<Token>, processing: string)
    ensures Line(ts, processing) == "" <==> ts == []
  {
    assert Opened(0) == "";
  }

  lemma {:induction false} LineArgument(ts: seq<Token>, processing: string, text: string)
    ensures Line(ts + [Argument(text)], processing) == WithArgument(Line(ts, processing), text)
  {
    EmitArgument(ts, true, processing, text);
    OpeningsNext(ts, Argument(text), true);
    var open, rest := Opened(Openings(ts, true)), Emit(ts, true, processing);
    if ts == [] {
      LineEmpty(ts, processing);
    } else {
      DropLastAfter(open, rest);
    }
    Regrouped(open, DropLast(rest) + text, ")");
    Regrouped(open, DropLast(rest), text);
  }

  lemma {:induction false} LineOther(ts: seq<Token>, processing: string, t: Token)
    requires t.Call? || (t.Fragment? && ts != [])
    ensures Line(ts + [t], processing) == "(" + Line(ts, processing) + (Own(t, false, processing) + ")")
  {
    EmitOther(ts, true, processing, t);
    OpeningsNext(ts, t, true);
    var n, rest, own := Openings(ts, true), Emit(ts, true, processing), Own(t, false, processing) + ")";
    OpenedOneMore(n, rest + own);
    Regrouped(Opened(n), rest, own);
    Regrouped("(", Line(ts, processing), own);
  }

  lemma {:induction false} LineFirst(processing: string, q: Query)
    ensures Line([Fragment(q)], processing) == QueryText(q, processing)
  {
    QueryTextIs(q, processing);
    var ts := [Fragment(q)];
    assert ts[1..] == [] && Openings(ts, true) == 0 && Opened(0) == "";
    assert Emit(ts, true, processing) == FragmentText(q, processing) + "(" + ")" + Emit([], false, processing);
    assert FragmentText(q, processing) + "(" + ")" + "" == FragmentText(q, processing) + "()";
  }

  lemma {:induction false} LaterText(before: string, text: string)
    ensures before + ("),(" + text + "()" + ")") == before + "),(" + (text + "()") + ")"
  {
  }

  lemma {:induction false} LineLeaf(ts: seq<Token>, processing: string, q: Query)
    ensures Line(ts + [Fragment(q)], processing) ==
            if ts == [] then QueryText(q, processing)
            else "(" + Line(ts, processing) + "),(" + QueryText(q, processing) + ")"
  {
    if ts == [] {
      LineFirst(processing, q);
      assert ts + [Fragment(q)] == [Fragment(q)];
    } else {
      QueryTextIs(q, processing);
      LineOther(ts, processing, Fragment(q));
      LaterText("(" + Line(ts, processing), FragmentText(q, processing));
    }
  }

  lemma {:induction false} LineCall(ts: seq<Token>, processing: string, name: string)
    ensures Line(ts + [Call(name)], processing) == "(" + Line(ts, processing) + ")." + (name + "()")
  {
    LineOther(ts, processing, Call(name));
  }

  // ----- The compiler writes this text -----

  lemma {:induction false} NodeWrites(node: Node, processing: string, ts: seq<Token>)
    requires NodeKnown(node)
    ensures CompileNode(node, processing, Line(ts, processing)) == Ok(Line(ts + NodeTokens(node), processing))
    decreases node, 0
  {
    match node
    case Operator(val, children) =>
      if val in METRIC_SET {
        var name := if val == "+" then "sum" else "divide";
        assert METRIC_SET[val] == name + "()";
        CompileWrites(children, processing, ts);
        LineCall(ts + Tokens(children), processing, name);
        Regrouped(ts, Tokens(children), [Call(name)]);
      } else {
        LineArgument(ts, processing, "${interval}");
      }
    case Name(_) => LineArgument(ts, processing, "${interval}");
    case Number(n) => LineArgument(ts, processing, IntText(n));
    case Leaf(q) =>
      LineEmpty(ts, processing);
      LineLeaf(ts, processing, q);
  }

  lemma {:induction false} CompileWrites(nodes: seq<Node>, processing: string, ts: seq<Token>)
    requires Known(nodes)
    ensures Compile(nodes, processing, Line(ts, processing)) == Ok(Line(ts + Tokens(nodes), processing))
    decreases nodes, 1
  {
    if nodes == [] {
      assert ts + [] == ts;
    } else {
      NodeWrites(nodes[0], processing, ts);
      assert forall i :: 0 <= i < |nodes[1..]| ==> nodes[1..][i] == nodes[i + 1];
      CompileWrites(nodes[1..], processing, ts + NodeTokens(nodes[0]));
      Regrouped(ts, NodeTokens(nodes[0]), Tokens(nodes[1..]));
    }
  }

  /** The compiled query is the post-order of the rule, written in one pass. */
  lemma {:induction false} CompiledIs(nodes: seq<Node>, processing: string)
    requires Known(nodes)
    ensures Compile(nodes, processing, "") == Ok(Line(Tokens(nodes), processing))
  {
    assert Line([], processing) == "";
    CompileWrites(nodes, processing, []);
    assert [] + Tokens(nodes) == Tokens(nodes);
  }
}
