/**
 * What the compiled query is: balanced exactly when the rule does not lead with a
 * literal, and made of the rule's query nodes in depth-first order.
 */
module TimelionProofs {
  import opened Prelude
  import opened Text
  import opened Parens
  import opened Timelion

  // ----- Rules -----

  predicate BalancedQuery(q: Query) {
    Balanced(q.metric) && Balanced(q.timestamp) && Balanced(q.index) && Balanced(q.aggregation)
  }

  /** The query nodes of a rule, depth first. */
  function NodeQueries(node: Node): seq<Query>
    decreases node, 0
  {
    match node
    case Operator(val, children) => if val in METRIC_SET then Queries(children) else []
    case Name(_) => []
    case Number(_) => []
    case Leaf(q) => [q]
  }

  function Queries(nodes: seq<Node>): seq<Query>
    decreases nodes, 1
  {
    if nodes == [] then [] else NodeQueries(nodes[0]) + Queries(nodes[1..])
  }

  /** The first leaf that the rule reaches is a number or a configuration value. */
  predicate NodeLeads(node: Node)
    decreases node, 0
  {
    match node
    case Operator(val, children) => if val in METRIC_SET then Leads(children) else true
    case Name(_) => true
    case Number(_) => true
    case Leaf(_) => false
  }

  predicate Leads(nodes: seq<Node>)
    decreases nodes, 1
  {
    nodes != [] && NodeLeads(nodes[0])
  }

  predicate NodeKnown(node: Node)
    decreases node, 0
  {
    match node
    case Operator(val, children) => if val in METRIC_SET then Known(children) else val in CONFIG_LIST
    case Name(val) => val in CONFIG_LIST && val !in METRIC_SET
    case Number(_) => true
    case Leaf(_) => true
  }

  /** Every text value of the rule is an operator with children or a configuration name. */
  predicate Known(nodes: seq<Node>)
    decreases nodes, 1
  {
    forall i :: 0 <= i < |nodes| ==> NodeKnown(nodes[i])
  }

  // ----- Errors -----

  lemma {:induction false} NodeCompilesIff(node: Node, processing: string, output: string)
    ensures CompileNode(node, processing, output).Ok? <==> NodeKnown(node)
    decreases node, 0
  {
    if node.Operator? && node.val in METRIC_SET {
      CompilesIffKnown(node.children, processing, output);
    }
  }

  /** A rule compiles exactly when all its text values are known. */
  lemma {:induction false} CompilesIffKnown(nodes: seq<Node>, processing: string, output: string)
    ensures Compile(nodes, processing, output).Ok? <==> Known(nodes)
    decreases nodes, 1
  {
    if nodes != [] {
      NodeCompilesIff(nodes[0], processing, output);
      var o := CompileNode(nodes[0], processing, output);
      if o.Ok? {
        CompilesIffKnown(nodes[1..], processing, o.value);
        assert Known(nodes) <==> NodeKnown(nodes[0]) && Known(nodes[1..]) by {
          assert forall i :: 0 < i < |nodes| ==> nodes[i] == nodes[1..][i - 1];
        }
      }
    }
  }

  // ----- Balance -----

  /** What is known of an output: empty, or ended by a closing parenthesis. */
  predicate Ended(output: string) {
    output == "" || output[|output| - 1] == ')'
  }

  lemma {:induction false} FieldsBalanced(value: string, key: string, rest: string)
    requires Balanced(value) && Plain(key) && Balanced(rest)
    ensures Balanced(value + (key + rest))
  {
    PlainIsBalanced(key);
    BalancedConcat(key, rest);
    BalancedConcat(value, key + rest);
  }

  lemma {:induction false} CallBalanced(name: string)
    requires Balanced(name)
    ensures Balanced(name + "()")
  {
    Enclosed("", "");
    assert "()" == "(" + "" + ")" + "";
    BalancedConcat(name, "()");
  }

  lemma {:induction false} AllFieldsBalanced(q: Query)
    requires BalancedQuery(q)
    ensures Balanced(Fields(q))
  {
    FieldsBalanced(q.index, ", metric=", q.aggregation);
    FieldsBalanced(q.timestamp, ", index=", q.index + (", metric=" + q.aggregation));
    FieldsBalanced(q.metric, ", timefield=", q.timestamp + (", index=" + (q.index + (", metric=" + q.aggregation))));
  }

  lemma {:induction false} QueryTextParts(fields: string, processing: string)
    ensures MARKER + (fields + (")." + (processing + "("))) + ")" ==
            ".es" + ("(" + ("q=" + fields) + ")" + ("." + (processing + "()")))
  {
  }

  lemma {:induction false} QueryTextBalanced(q: Query, processing: string)
    requires BalancedQuery(q) && Balanced(processing)
    ensures Balanced(QueryText(q, processing))
  {
    AllFieldsBalanced(q);
    CallBalanced(processing);
    BalancedAround(Fields(q), processing + "()");
    QueryTextParts(Fields(q), processing);
  }

  lemma {:induction false} BalancedAround(fields: string, call: string)
    requires Balanced(fields) && Balanced(call)
    ensures Balanced(".es" + ("(" + ("q=" + fields) + ")" + ("." + call)))
  {
    PlainIsBalanced(".es");
    PlainIsBalanced("q=");
    PlainIsBalanced(".");
    BalancedConcat("q=", fields);
    BalancedConcat(".", call);
    Enclosed("q=" + fields, "." + call);
    BalancedConcat(".es", "(" + ("q=" + fields) + ")" + ("." + call));
  }

  /** One step from output a to output b keeps depth and balance. */
  predicate KeepsBalance(a: string, b: string) {
    b != "" && Ended(b) && Depth(b) == Depth(a) && (Balanced(a) ==> Balanced(b))
  }

  lemma {:induction false} OperatorKeeps(o: string, val: string)
    requires val in METRIC_SET
    ensures KeepsBalance(o, "(" + o + ")." + METRIC_SET[val])
  {
    var name := if val == "+" then ".sum" else ".divide";
    var tail := name + "()";
    PlainIsBalanced(name);
    CallBalanced(name);
    Enclosed(o, tail);
    assert "(" + o + ")." + METRIC_SET[val] == "(" + o + ")" + tail;
  }

  lemma {:induction false} ArgumentKeeps(output: string, value: string)
    requires output != "" && Ended(output) && Plain(value)
    ensures KeepsBalance(output, WithArgument(output, value))
  {
    PlainIsBalanced(value);
    BeforeLast(DropLast(output), value);
    assert output == DropLast(output) + ")";
  }

  lemma {:induction false} LeadingArgument(value: string)
    requires Plain(value)
    ensures WithArgument("", value) != "" && Ended(WithArgument("", value)) && Depth(WithArgument("", value)) == -1
  {
    PlainIsBalanced(value);
    Concat("" + value, ")");
    assert "" + value == value;
  }

  lemma {:induction false} PairKeeps(output: string, text: string)
    requires Balanced(text)
    ensures KeepsBalance(output, "(" + output + "),(" + text + ")")
  {
    Enclosed(text, "");
    var tail := "," + ("(" + text + ")" + "");
    PlainIsBalanced(",");
    BalancedConcat(",", "(" + text + ")" + "");
    Enclosed(output, tail);
    assert "(" + output + "),(" + text + ")" == "(" + output + ")" + tail;
  }

  predicate AllBalanced(qs: seq<Query>) {
    forall q :: q in qs ==> BalancedQuery(q)
  }

  /** From a given output to the next one: the depth is kept, except that a leading literal loses one. */
  predicate Outcome(output: string, leads: bool, r: string) {
    Ended(r) &&
    (output != "" ==> KeepsBalance(output, r)) &&
    (output == "" && r != "" ==> if leads then Depth(r) == -1 else Balanced(r))
  }

  lemma {:induction false} IntTextPlain(n: int)
    ensures Plain(IntText(n))
  {
  }

  lemma {:induction false} NodeOutcome(node: Node, processing: string, output: string)
    requires AllBalanced(NodeQueries(node)) && Balanced(processing) && Ended(output)
    requires CompileNode(node, processing, output).Ok?
    ensures var r := CompileNode(node, processing, output).value;
            r != "" && Outcome(output, NodeLeads(node), r)
    decreases node, 0
  {
    match node
    case Operator(val, children) =>
      if val in METRIC_SET {
        CompileOutcome(children, processing, output);
        OperatorKeeps(Compile(children, processing, output).value, val);
      } else if output == "" {
        LeadingArgument(CONFIG_LIST[val]);
      } else {
        ArgumentKeeps(output, CONFIG_LIST[val]);
      }
    case Name(val) =>
      if output == "" { LeadingArgument(CONFIG_LIST[val]); } else { ArgumentKeeps(output, CONFIG_LIST[val]); }
    case Number(n) =>
      IntTextPlain(n);
      if output == "" { LeadingArgument(IntText(n)); } else { ArgumentKeeps(output, IntText(n)); }
    case Leaf(q) =>
      assert q in NodeQueries(node);
      QueryTextBalanced(q, processing);
      if output != "" { PairKeeps(output, QueryText(q, processing)); }
  }

  lemma {:induction false} CompileOutcome(nodes: seq<Node>, processing: string, output: string)
    requires AllBalanced(Queries(nodes)) && Balanced(processing) && Ended(output)
    requires Compile(nodes, processing, output).Ok?
    ensures var r := Compile(nodes, processing, output).value;
            if nodes == [] then r == output else r != "" && Outcome(output, Leads(nodes), r)
    decreases nodes, 1
  {
    if nodes != [] {
      assert forall q :: q in NodeQueries(nodes[0]) || q in Queries(nodes[1..]) ==> q in Queries(nodes);
      NodeOutcome(nodes[0], processing, output);
      CompileOutcome(nodes[1..], processing, CompileNode(nodes[0], processing, output).value);
    }
  }

  /** With balanced fields, the compiled query is balanced exactly when no literal comes first. */
  lemma {:induction false} CompiledBalancedIff(nodes: seq<Node>, processing: string)
    requires AllBalanced(Queries(nodes)) && Balanced(processing)
    requires Compile(nodes, processing, "").Ok?
    ensures Balanced(Compile(nodes, processing, "").value) <==> !Leads(nodes)
  {
    CompileOutcome(nodes, processing, "");
  }

  // ----- Fragments -----

  /** The suffixes of a text that start a fragment, from left to right. */
  function Marked(s: string): seq<string> {
    if s == "" then [] else (if MARKER <= s then [s] else []) + Marked(s[1..])
  }

  function Each(xs: seq<string>, b: string): (r: seq<string>)
    ensures |r| == |xs| && forall i :: 0 <= i < |xs| ==> r[i] == xs[i] + b
  {
    seq(|xs|, i requires 0 <= i < |xs| => xs[i] + b)
  }

  lemma {:induction false} NoSeam(a: string, b: string)
    requires a != "" && (b == "" || b[0] !in MARKER)
    ensures MARKER <= a + b <==> MARKER <= a
  {
    if |a| < |MARKER| && b != "" {
      assert (a + b)[|a|] == b[0];
      assert MARKER[|a|] in MARKER;
    } else if b == "" {
      assert a + b == a;
    }
  }

  /** No fragment starts across a seam whose right side begins with a character outside the marker. */
  lemma {:induction false} MarkedConcat(a: string, b: string)
    requires b == "" || b[0] !in MARKER
    ensures Marked(a + b) == Each(Marked(a), b) + Marked(b)
  {
    if a == "" {
      assert a + b == b;
    } else {
      MarkedConcat(a[1..], b);
      assert (a + b)[1..] == a[1..] + b;
      NoSeam(a, b);
    }
  }

  lemma {:induction false} NoDotNoMark(s: string)
    requires '.' !in s
    ensures Marked(s) == []
  {
    if s != "" {
      assert s[0] in s;
      forall x | x in s[1..] ensures x in s {}
      NoDotNoMark(s[1..]);
    }
  }

  lemma {:induction false} MarkedCons(c: char, s: string)
    requires c != '.'
    ensures Marked([c] + s) == Marked(s)
  {
    var whole := [c] + s;
    assert whole[0] == c && whole[1..] == s;
    assert MARKER[0] == '.';
  }

  /** Read left to right, the text's fragments are these queries. */
  predicate Reads(s: string, qs: seq<Query>, processing: string) {
    |Marked(s)| == |qs| && forall i :: 0 <= i < |qs| ==> Stem(qs[i], processing) <= Marked(s)[i]
  }

  /** The marker occurs in a fragment's text only at its start. */
  predicate Clean(q: Query, processing: string) {
    |Marked(QueryText(q, processing))| == 1
  }

  lemma {:induction false} ReadsAppend(a: string, qs: seq<Query>, b: string, rs: seq<Query>, processing: string)
    requires Reads(a, qs, processing) && Reads(b, rs, processing)
    requires b != "" && b[0] !in MARKER
    ensures Reads(a + b, qs + rs, processing)
  {
    MarkedConcat(a, b);
  }

  /** Taking a last character off that no stem ends with cannot reach into a stem. */
  lemma {:induction false} ReadsInit(d: string, c: char, qs: seq<Query>, processing: string)
    requires Reads(d + [c], qs, processing) && c !in MARKER
    ensures Reads(d, qs, processing)
  {
    MarkedConcat(d, [c]);
    assert MARKER[0] == '.' && MARKER[0] in MARKER;
    NoDotNoMark([c]);
    assert MARKER[3] == '(' && MARKER[3] in MARKER;
    forall i | 0 <= i < |qs| ensures Stem(qs[i], processing) <= Marked(d)[i] {
      var stem := Stem(qs[i], processing);
      assert stem <= Marked(d)[i] + [c];
      assert stem[|stem| - 1] == '(';
    }
  }

  lemma {:induction false} ReadsDropLast(s: string, qs: seq<Query>, processing: string)
    requires Reads(s, qs, processing) && s != "" && Ended(s)
    ensures Reads(DropLast(s), qs, processing)
  {
    assert s == DropLast(s) + [')'];
    ReadsInit(DropLast(s), ')', qs, processing);
  }

  lemma {:induction false} ReadsLiteral(output: string, qs: seq<Query>, value: string, processing: string)
    requires Reads(output, qs, processing) && Ended(output)
    requires '.' !in value && value != "" && value[0] !in MARKER
    ensures Ended(WithArgument(output, value)) && Reads(WithArgument(output, value), qs, processing)
  {
    if output != "" {
      ReadsDropLast(output, qs, processing);
    }
    NoDotNoMark(value + ")");
    ReadsAppend(DropLast(output), qs, value + ")", [], processing);
    assert DropLast(output) + (value + ")") == WithArgument(output, value);
    assert qs + [] == qs;
  }

  lemma {:induction false} ReadsEnclosed(output: string, qs: seq<Query>, tail: string, rs: seq<Query>, processing: string)
    requires Reads(output, qs, processing) && Reads(tail, rs, processing) && tail != "" && tail[0] !in MARKER
    ensures Reads("(" + output + tail, qs + rs, processing)
  {
    ReadsAppend(output, qs, tail, rs, processing);
    MarkedCons('(', output + tail);
    assert "(" + output + tail == ['('] + (output + tail);
  }

  lemma {:induction false} ReadsQuery(q: Query, processing: string)
    requires Clean(q, processing)
    ensures Reads(QueryText(q, processing), [q], processing)
  {
  }

  lemma {:induction false} PairTailText(text: string)
    ensures "),(" + text + ")" == [')'] + ([','] + (['('] + (text + ")")))
  {
  }

  lemma {:induction false} MarkedPairTail(text: string)
    ensures Marked("),(" + text + ")") == Marked(text + ")")
  {
    MarkedCons('(', text + ")");
    MarkedCons(',', ['('] + (text + ")"));
    MarkedCons(')', [','] + (['('] + (text + ")")));
    PairTailText(text);
  }

  lemma {:induction false} ReadsPairTail(q: Query, processing: string)
    requires Reads(QueryText(q, processing), [q], processing)
    ensures Reads("),(" + QueryText(q, processing) + ")", [q], processing)
  {
    NoDotNoMark(")");
    ReadsAppend(QueryText(q, processing), [q], ")", [], processing);
    MarkedPairTail(QueryText(q, processing));
  }

  lemma {:induction false} MarkedOperatorTail(val: string)
    requires val in METRIC_SET
    ensures Marked(")." + METRIC_SET[val]) == []
  {
    var call := METRIC_SET[val];
    NoDotNoMark(call);
    MarkedDotted(call);
    MarkedCons(')', ['.'] + call);
    assert ")." + call == [')'] + (['.'] + call);
  }

  lemma {:induction false} MarkedDotted(call: string)
    requires call != "" && call[0] != MARKER[1]
    ensures Marked(['.'] + call) == Marked(call)
  {
    var dotted := ['.'] + call;
    assert dotted[1..] == call && dotted[1] == call[0];
  }

  lemma {:induction false} ReadsOperator(o: string, qs: seq<Query>, val: string, processing: string)
    requires val in METRIC_SET && Reads(o, qs, processing)
    ensures Ended("(" + o + ")." + METRIC_SET[val]) && Reads("(" + o + ")." + METRIC_SET[val], qs, processing)
  {
    var tail := ")." + METRIC_SET[val];
    MarkedOperatorTail(val);
    ReadsEnclosed(o, qs, tail, [], processing);
    assert "(" + o + ")." + METRIC_SET[val] == "(" + o + tail;
  }

  lemma {:induction false} ReadsLeaf(output: string, qs: seq<Query>, q: Query, processing: string)
    requires Clean(q, processing) && Reads(output, qs, processing)
    ensures var r := if output == "" then QueryText(q, processing)
                     else "(" + output + "),(" + QueryText(q, processing) + ")";
            Ended(r) && Reads(r, qs + [q], processing)
  {
    ReadsQuery(q, processing);
    if output == "" {
      assert qs + [q] == [q];
    } else {
      ReadsPairTail(q, processing);
      var tail := "),(" + QueryText(q, processing) + ")";
      ReadsEnclosed(output, qs, tail, [q], processing);
      assert "(" + output + "),(" + QueryText(q, processing) + ")" == "(" + output + tail;
    }
  }

  lemma {:induction false} ReadsNumber(output: string, qs: seq<Query>, n: int, processing: string)
    requires Reads(output, qs, processing) && Ended(output)
    ensures Ended(WithArgument(output, IntText(n))) && Reads(WithArgument(output, IntText(n)), qs, processing)
  {
    var digits := Decimal(if n < 0 then -n else n);
    assert '.' !in digits && digits[0] in digits;
    ReadsLiteral(output, qs, IntText(n), processing);
  }

  predicate AllClean(qs: seq<Query>, processing: string) {
    forall q :: q in qs ==> Clean(q, processing)
  }

  lemma {:induction false} CleanParts(a: seq<Query>, b: seq<Query>, processing: string)
    requires AllClean(a + b, processing)
    ensures AllClean(a, processing) && AllClean(b, processing)
  {
  }

  lemma {:induction false} NodeReads(node: Node, processing: string, output: string, qs: seq<Query>)
    requires AllClean(NodeQueries(node), processing) && Ended(output) && Reads(output, qs, processing)
    requires CompileNode(node, processing, output).Ok?
    ensures var r := CompileNode(node, processing, output).value;
            Ended(r) && Reads(r, qs + NodeQueries(node), processing)
    decreases node, 0
  {
    match node
    case Operator(val, children) =>
      if val in METRIC_SET {
        CompileReads(children, processing, output, qs);
        ReadsOperator(Compile(children, processing, output).value, qs + Queries(children), val, processing);
      } else {
        ReadsLiteral(output, qs, CONFIG_LIST[val], processing);
        assert qs + [] == qs;
      }
    case Name(val) =>
      ReadsLiteral(output, qs, CONFIG_LIST[val], processing);
      assert qs + [] == qs;
    case Number(n) =>
      ReadsNumber(output, qs, n, processing);
      assert qs + [] == qs;
    case Leaf(q) =>
      assert q in NodeQueries(node);
      ReadsLeaf(output, qs, q, processing);
  }

  lemma {:induction false} CompileReads(nodes: seq<Node>, processing: string, output: string, qs: seq<Query>)
    requires AllClean(Queries(nodes), processing) && Ended(output) && Reads(output, qs, processing)
    requires Compile(nodes, processing, output).Ok?
    ensures var r := Compile(nodes, processing, output).value;
            Ended(r) && Reads(r, qs + Queries(nodes), processing)
    decreases nodes, 1
  {
    if nodes == [] {
      assert qs + [] == qs;
    } else {
      var first, rest := NodeQueries(nodes[0]), Queries(nodes[1..]);
      CleanParts(first, rest, processing);
      NodeReads(nodes[0], processing, output, qs);
      var o := CompileNode(nodes[0], processing, output).value;
      CompileReads(nodes[1..], processing, o, qs + first);
      ReadsRegrouped(Compile(nodes[1..], processing, o).value, qs, first, rest, processing);
    }
  }

  lemma {:induction false} ReadsRegrouped(s: string, a: seq<Query>, b: seq<Query>, c: seq<Query>, processing: string)
    requires Reads(s, a + b + c, processing)
    ensures Reads(s, a + (b + c), processing)
  {
    assert a + b + c == a + (b + c);
  }

  /** The fragments of the compiled query are the rule's query nodes, depth first, none lost or repeated. */
  lemma {:induction false} CompiledReadsQueries(nodes: seq<Node>, processing: string)
    requires AllClean(Queries(nodes), processing)
    requires Compile(nodes, processing, "").Ok?
    ensures Reads(Compile(nodes, processing, "").value, Queries(nodes), processing)
  {
    CompileReads(nodes, processing, "", []);
    assert [] + Queries(nodes) == Queries(nodes);
  }
}
