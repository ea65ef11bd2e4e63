/**
 * From the rules to the query that is sent: narrowing an index and filling in the
 * interval edit the compiled text, and come to the same as compiling edited rules.
 */
module TimelionSent {
  import opened Prelude
  import opened Text
  import opened Calendar
  import opened Timelion
  import opened TimelionProofs
  import opened TimelionRequest
  import opened TimelionWindow

  const PLACEHOLDER := "${interval}"

  // ----- Replacing in a compiled text -----

  /** Free of the characters at which the compiler puts texts together. */
  predicate NoSeams(s: string) {
    '(' !in s && ')' !in s && ',' !in s && '.' !in s && '=' !in s && ' ' !in s
  }

  /** A text that no literal of the compiler contains or runs into. */
  predicate Separate(needle: string) {
    needle != "" && needle[|needle| - 1] in {'*', '}'} && NoSeams(needle)
  }

  /** What stands for the configured interval after the replacement. */
  predicate Stands(config: Node, needle: string, to: string) {
    match config
    case Name(val) => val == "interval" && Replace(PLACEHOLDER, needle, to) == PLACEHOLDER
    case Number(n) => Replace(PLACEHOLDER, needle, to) == IntText(n)
    case _ => false
  }

  function EditedQuery(q: Query, needle: string, to: string): Query {
    Query(Replace(q.metric, needle, to), Replace(q.timestamp, needle, to),
          Replace(q.index, needle, to), Replace(q.aggregation, needle, to))
  }

  function EditedNode(node: Node, needle: string, to: string, config: Node): Node
    decreases node, 0
  {
    match node
    case Operator(val, children) =>
      if val in METRIC_SET then Operator(val, EditedNodes(children, needle, to, config))
      else if val in CONFIG_LIST then config
      else node
    case Name(val) => if val in CONFIG_LIST then config else node
    case Number(_) => node
    case Leaf(q) => Leaf(EditedQuery(q, needle, to))
  }

  function EditedNodes(nodes: seq<Node>, needle: string, to: string, config: Node): (r: seq<Node>)
    ensures |r| == |nodes|
    decreases nodes, 1
  {
    if nodes == [] then []
    else [EditedNode(nodes[0], needle, to, config)] + EditedNodes(nodes[1..], needle, to, config)
  }

  lemma {:induction false} EditedFields(q: Query, needle: string, to: string)
    requires Separate(needle)
    ensures Replace(Fields(q), needle, to) == Fields(EditedQuery(q, needle, to))
  {
    var c := q.index + (", metric=" + q.aggregation);
    var b := q.timestamp + (", index=" + c);
    ReplaceAround(q.metric, ", timefield=", b, needle, to);
    ReplaceAround(q.timestamp, ", index=", c, needle, to);
    ReplaceAround(q.index, ", metric=", q.aggregation, needle, to);
  }

  lemma {:induction false} EditedStem(q: Query, processing: string, needle: string, to: string)
    requires Separate(needle)
    ensures Replace(Stem(q, processing), needle, to) ==
            Stem(EditedQuery(q, needle, to), Replace(processing, needle, to))
  {
    var call := processing + "(";
    var rest := Fields(q) + (")." + call);
    assert MARKER + rest == "" + (MARKER + rest);
    ReplaceAround("", MARKER, rest, needle, to);
    ReplaceAround(Fields(q), ").", call, needle, to);
    ReplaceBefore(processing, "(", needle, to);
    EditedFields(q, needle, to);
  }

  lemma {:induction false} EditedQueryText(q: Query, processing: string, needle: string, to: string)
    requires Separate(needle)
    ensures Replace(QueryText(q, processing), needle, to) ==
            QueryText(EditedQuery(q, needle, to), Replace(processing, needle, to))
  {
    ReplaceBefore(Stem(q, processing), ")", needle, to);
    EditedStem(q, processing, needle, to);
  }

  lemma {:induction false} EditedOpening(x: string, needle: string, to: string)
    requires Separate(needle)
    ensures Replace("(" + x, needle, to) == "(" + Replace(x, needle, to)
  {
    var whole := "(" + x;
    assert whole[0] == '(' && whole[1..] == x;
    assert needle[0] in needle;
  }

  lemma {:induction false} EditedOperator(o: string, val: string, needle: string, to: string)
    requires Separate(needle) && val in METRIC_SET
    ensures Replace("(" + o + ")." + METRIC_SET[val], needle, to) == "(" + Replace(o, needle, to) + ")." + METRIC_SET[val]
  {
    ReplaceBefore("(" + o + ").", METRIC_SET[val], needle, to);
    ReplaceBefore("(" + o, ").", needle, to);
    EditedOpening(o, needle, to);
  }

  lemma {:induction false} EditedPair(output: string, text: string, needle: string, to: string)
    requires Separate(needle)
    ensures Replace("(" + output + "),(" + text + ")", needle, to) ==
            "(" + Replace(output, needle, to) + "),(" + Replace(text, needle, to) + ")"
  {
    ReplaceBefore("(" + output + "),(" + text, ")", needle, to);
    ReplaceBetween("(" + output, "),(", text, needle, to);
    EditedOpening(output, needle, to);
  }

  /** The start of an argument cannot continue an occurrence, or its text does not end one. */
  predicate Detached(value: string, needle: string) {
    value != "" && needle != "" &&
    ((forall j :: 0 < j < |needle| ==> needle[j] != value[0]) || needle[|needle| - 1] !in value)
  }

  lemma {:induction false} EditedArgument(output: string, value: string, needle: string, to: string)
    requires Separate(needle) && Ended(output) && Detached(value, needle)
    ensures Replace(WithArgument(output, value), needle, to) ==
            WithArgument(Replace(output, needle, to), Replace(value, needle, to))
  {
    var d := DropLast(output);
    ReplaceBefore(d + value, ")", needle, to);
    ReplaceConcat(d, value, needle, to);
    if output != "" {
      assert output == d + ")";
      ReplaceBefore(d, ")", needle, to);
    }
  }

  lemma {:induction false} ReplaceKeepsEnd(output: string, needle: string, to: string)
    requires Separate(needle) && Ended(output)
    ensures Ended(Replace(output, needle, to)) && (Replace(output, needle, to) == "" <==> output == "")
  {
    if output != "" {
      assert output == DropLast(output) + ")";
      ReplaceBefore(DropLast(output), ")", needle, to);
    }
  }

  lemma {:induction false} IntTextDetached(n: int, needle: string, to: string)
    requires Separate(needle)
    ensures Detached(IntText(n), needle) && Replace(IntText(n), needle, to) == IntText(n)
  {
    var digits := Decimal(if n < 0 then -n else n);
    assert '*' !in digits && '}' !in digits;
    ReplaceAbsent(IntText(n), needle, to);
  }

  /** An occurrence of the replaced text can start at the placeholder's dollar sign only with it. */
  predicate DollarFirst(needle: string) {
    forall j :: 0 < j < |needle| ==> needle[j] != '$'
  }

  lemma {:induction false} EditedConfig(config: Node, processing: string, output: string, needle: string, to: string)
    requires Separate(needle) && DollarFirst(needle) && Stands(config, needle, to) && Ended(output)
    ensures CompileNode(config, Replace(processing, needle, to), Replace(output, needle, to)) ==
            Ok(Replace(WithArgument(output, PLACEHOLDER), needle, to))
  {
    EditedArgument(output, PLACEHOLDER, needle, to);
  }

  lemma {:induction false} CompiledEnds(nodes: seq<Node>, processing: string, output: string)
    requires Ended(output) && Compile(nodes, processing, output).Ok?
    ensures Ended(Compile(nodes, processing, output).value)
    decreases |nodes|
  {
    if nodes != [] {
      CompiledEnds(nodes[1..], processing, CompileNode(nodes[0], processing, output).value);
    }
  }

  lemma {:induction false} EditedNodeCompiles(node: Node, processing: string, output: string,
                                              needle: string, to: string, config: Node)
    requires Separate(needle) && DollarFirst(needle) && Stands(config, needle, to) && Ended(output)
    requires CompileNode(node, processing, output).Ok?
    ensures CompileNode(EditedNode(node, needle, to, config), Replace(processing, needle, to),
                        Replace(output, needle, to)) ==
            Ok(Replace(CompileNode(node, processing, output).value, needle, to))
    decreases node, 0
  {
    match node
    case Operator(val, children) =>
      if val in METRIC_SET {
        EditedRuleCompiles(children, processing, output, needle, to, config);
        EditedOperator(Compile(children, processing, output).value, val, needle, to);
      } else {
        EditedConfig(config, processing, output, needle, to);
      }
    case Name(val) =>
      EditedConfig(config, processing, output, needle, to);
    case Number(n) =>
      IntTextDetached(n, needle, to);
      EditedArgument(output, IntText(n), needle, to);
    case Leaf(q) =>
      ReplaceKeepsEnd(output, needle, to);
      EditedQueryText(q, processing, needle, to);
      if output != "" {
        EditedPair(output, QueryText(q, processing), needle, to);
      }
  }

  /** Editing a compiled text is compiling the edited rule. */
  lemma {:induction false} EditedRuleCompiles(nodes: seq<Node>, processing: string, output: string,
                                              needle: string, to: string, config: Node)
    requires Separate(needle) && DollarFirst(needle) && Stands(config, needle, to) && Ended(output)
    requires Compile(nodes, processing, output).Ok?
    ensures Compile(EditedNodes(nodes, needle, to, config), Replace(processing, needle, to), Replace(output, needle, to))
         == Ok(Replace(Compile(nodes, processing, output).value, needle, to))
    decreases nodes, 1
  {
    if nodes != [] {
      EditedNodeCompiles(nodes[0], processing, output, needle, to, config);
      var o := CompileNode(nodes[0], processing, output).value;
      assert Ended(o) by { CompiledEnds([nodes[0]], processing, output); }
      EditedRuleCompiles(nodes[1..], processing, o, needle, to, config);
      EditedFirst(nodes, needle, to, config);
    }
  }

  /** The query nodes of an edited rule are the edited query nodes. */
  function EditedQueries(qs: seq<Query>, needle: string, to: string): (r: seq<Query>)
    ensures |r| == |qs| && forall i :: 0 <= i < |qs| ==> r[i] == EditedQuery(qs[i], needle, to)
  {
    seq(|qs|, i requires 0 <= i < |qs| => EditedQuery(qs[i], needle, to))
  }

  lemma {:induction false} EditedQueriesConcat(a: seq<Query>, b: seq<Query>, needle: string, to: string)
    ensures EditedQueries(a + b, needle, to) == EditedQueries(a, needle, to) + EditedQueries(b, needle, to)
  {
  }

  lemma {:induction false} EditedFirst(nodes: seq<Node>, needle: string, to: string, config: Node)
    requires nodes != []
    ensures var edited := EditedNodes(nodes, needle, to, config);
            edited[0] == EditedNode(nodes[0], needle, to, config) &&
            edited[1..] == EditedNodes(nodes[1..], needle, to, config)
  {
  }

  lemma {:induction false} NodeQueriesEdited(node: Node, needle: string, to: string, config: Node)
    requires Stands(config, needle, to) && NodeKnown(node)
    ensures NodeQueries(EditedNode(node, needle, to, config)) == EditedQueries(NodeQueries(node), needle, to)
    decreases node, 0
  {
    if node.Operator? && node.val in METRIC_SET {
      QueriesEdited(node.children, needle, to, config);
    }
  }

  lemma {:induction false} QueriesEdited(nodes: seq<Node>, needle: string, to: string, config: Node)
    requires Stands(config, needle, to) && Known(nodes)
    ensures Queries(EditedNodes(nodes, needle, to, config)) == EditedQueries(Queries(nodes), needle, to)
    decreases nodes, 1
  {
    if nodes != [] {
      NodeQueriesEdited(nodes[0], needle, to, config);
      assert Known(nodes[1..]) by {
        assert forall i :: 0 <= i < |nodes[1..]| ==> nodes[1..][i] == nodes[i + 1];
      }
      QueriesEdited(nodes[1..], needle, to, config);
      EditedFirst(nodes, needle, to, config);
      EditedQueriesConcat(NodeQueries(nodes[0]), Queries(nodes[1..]), needle, to);
    }
  }

  // ----- Labels and joined metrics -----

  lemma {:induction false} EditedLabel(query: string, name: string, needle: string, to: string)
    requires Separate(needle)
    ensures Replace(Labelled(query, name), needle, to) == Labelled(Replace(query, needle, to), Replace(name, needle, to))
  {
    ReplaceBefore("(" + query + ").label(" + name, ")", needle, to);
    ReplaceBetween("(" + query, ").label(", name, needle, to);
    EditedOpening(query, needle, to);
  }

  function Edited(texts: seq<string>, needle: string, to: string): (r: seq<string>)
    ensures |r| == |texts| && forall i :: 0 <= i < |texts| ==> r[i] == Replace(texts[i], needle, to)
  {
    seq(|texts|, i requires 0 <= i < |texts| => Replace(texts[i], needle, to))
  }

  lemma {:induction false} EditedJoin(texts: seq<string>, needle: string, to: string)
    requires Separate(needle)
    ensures Replace(Join(texts), needle, to) == Join(Edited(texts, needle, to))
  {
    if texts != [] {
      ReplaceBetween(texts[0], ",", Join(texts[1..]), needle, to);
      EditedJoin(texts[1..], needle, to);
      assert Edited(texts, needle, to)[1..] == Edited(texts[1..], needle, to);
    }
  }

  lemma {:induction false} JoinEnds(texts: seq<string>)
    requires texts != []
    ensures Join(texts) != "" && Join(texts)[|Join(texts)| - 1] == ','
  {
    if |texts| > 1 {
      JoinEnds(texts[1..]);
    } else {
      assert texts[1..] == [];
    }
  }

  /** The request over several metrics without its last separator. */
  function Inside(texts: seq<string>): string
    requires texts != []
  {
    DropLast(Join(texts))
  }

  lemma {:induction false} RequestTextIs(texts: seq<string>)
    requires texts != []
    ensures Join(texts) == Inside(texts) + [','] && RequestText(texts) == "(" + Inside(texts) + ")"
  {
    JoinEnds(texts);
  }

  lemma {:induction false} EditedRequest(texts: seq<string>, needle: string, to: string)
    requires Separate(needle) && texts != []
    ensures Replace(RequestText(texts), needle, to) == RequestText(Edited(texts, needle, to))
  {
    var edited := Edited(texts, needle, to);
    RequestTextIs(texts);
    RequestTextIs(edited);
    EditedJoin(texts, needle, to);
    ReplaceBefore(Inside(texts), ",", needle, to);
    assert Inside(edited) == Replace(Inside(texts), needle, to);
    ReplaceBefore("(" + Inside(texts), ")", needle, to);
    EditedOpening(Inside(texts), needle, to);
  }

  // ----- Reading labels and joined metrics -----

  /** No fragment seems to start in a label. */
  predicate CleanLabel(name: string) {
    Marked(").label(" + name + ")") == []
  }

  lemma {:induction false} ReadsLabelled(query: string, name: string, qs: seq<Query>, processing: string)
    requires Reads(query, qs, processing) && CleanLabel(name)
    ensures Reads(Labelled(query, name), qs, processing)
  {
    var tail := ").label(" + name + ")";
    ReadsEnclosed(query, qs, tail, [], processing);
    LabelTail(query, name);
    assert qs + [] == qs;
  }

  lemma {:induction false} LabelTail(query: string, name: string)
    ensures Labelled(query, name) == "(" + query + (").label(" + name + ")")
  {
  }

  function Flat(qss: seq<seq<Query>>): seq<Query> {
    if qss == [] then [] else qss[0] + Flat(qss[1..])
  }

  lemma {:induction false} ReadsJoin(texts: seq<string>, qss: seq<seq<Query>>, processing: string)
    requires |texts| == |qss| && forall i :: 0 <= i < |texts| ==> Reads(texts[i], qss[i], processing)
    ensures Reads(Join(texts), Flat(qss), processing)
  {
    if texts != [] {
      var rest := Join(texts[1..]);
      ReadsJoin(texts[1..], qss[1..], processing);
      MarkedCons(',', rest);
      ReadsAppend(texts[0], qss[0], [','] + rest, Flat(qss[1..]), processing);
      assert Join(texts) == texts[0] + ([','] + rest);
    }
  }

  /** Read left to right, a request shows the queries of its metrics in order. */
  lemma {:induction false} ReadsRequest(texts: seq<string>, qss: seq<seq<Query>>, processing: string)
    requires texts != [] && |texts| == |qss|
    requires forall i :: 0 <= i < |texts| ==> Reads(texts[i], qss[i], processing)
    ensures Reads(RequestText(texts), Flat(qss), processing)
  {
    ReadsJoin(texts, qss, processing);
    RequestTextIs(texts);
    ReadsInit(Inside(texts), ',', Flat(qss), processing);
    NoDotNoMark(")");
    ReadsEnclosed(Inside(texts), Flat(qss), ")", [], processing);
    assert Flat(qss) + [] == Flat(qss);
  }

  // ----- One metric -----

  function TemplateText(m: Metric, processing: string): string
    requires Known(m.nodes)
  {
    CompilesIffKnown(m.nodes, processing, "");
    Labelled(Compile(m.nodes, processing, "").value, m.name)
  }

  lemma {:induction false} EditedTemplate(m: Metric, processing: string, needle: string, to: string, config: Node)
    requires Separate(needle) && DollarFirst(needle) && Stands(config, needle, to)
    requires Known(m.nodes) && needle[|needle| - 1] !in processing
    ensures var e := Metric(Replace(m.name, needle, to), EditedNodes(m.nodes, needle, to, config));
            Known(e.nodes) && Queries(e.nodes) == EditedQueries(Queries(m.nodes), needle, to) &&
            Replace(TemplateText(m, processing), needle, to) == TemplateText(e, processing)
  {
    CompilesIffKnown(m.nodes, processing, "");
    ReplaceAbsent(processing, needle, to);
    EditedRuleCompiles(m.nodes, processing, "", needle, to, config);
    var nodes := EditedNodes(m.nodes, needle, to, config);
    CompilesIffKnown(nodes, processing, "");
    QueriesEdited(m.nodes, needle, to, config);
    EditedLabel(Compile(m.nodes, processing, "").value, m.name, needle, to);
  }

  predicate IndexChar(c: char) {
    'a' <= c <= 'z' || c in {'_', '-', '*'}
  }

  lemma {:induction false} KnownIndexLetters(index: string, c: char)
    requires index in INDEXES && c in index
    ensures IndexChar(c)
  {
    if index == INDEXES[0] {
      assert c in "statsd_timerdata-*";
    } else if index == INDEXES[1] {
      assert c in "statsd_counter-*";
    } else {
      assert c in "statsd_gauge-*";
    }
  }

  lemma {:induction false} KnownIndexChars(index: string)
    requires index in INDEXES
    ensures NoSeams(index) && '$' !in index && '}' !in index
  {
    forall c | c in index ensures IndexChar(c) {
      KnownIndexLetters(index, c);
    }
  }

  lemma {:induction false} IndexIsSeparate(index: string, to: string)
    requires index in INDEXES
    ensures Separate(index) && DollarFirst(index) && Stands(Name("interval"), index, to)
  {
    KnownIndexChars(index);
    KnownIndexIsFamily(index);
    forall j | 0 < j < |index| ensures index[j] != '$' {
      assert index[j] in index;
    }
    assert '*' !in PLACEHOLDER;
    ReplaceAbsent(PLACEHOLDER, index, to);
  }

  lemma {:induction false} PlaceholderIsSeparate(n: int)
    ensures Separate(PLACEHOLDER) && DollarFirst(PLACEHOLDER) && Stands(Number(n), PLACEHOLDER, IntText(n))
  {
    assert PLACEHOLDER[|PLACEHOLDER|..] == "";
    assert IntText(n) + "" == IntText(n);
  }

  lemma {:induction false} IndexInIs(metric: string, indexes: seq<string>)
    ensures IndexIn(metric, indexes) == "" || IndexIn(metric, indexes) in indexes
  {
    if indexes != [] {
      IndexInIs(metric, indexes[1..]);
    }
  }

  /** The metric with its index narrowed, as a rule. */
  function NarrowedMetric(m: Metric, index: string, to: string): Metric {
    if index == "" then m
    else Metric(Replace(m.name, index, to), EditedNodes(m.nodes, index, to, Name("interval")))
  }

  /** The metric with its interval filled in, as a rule. */
  function FilledMetric(m: Metric, n: int): Metric {
    Metric(Replace(m.name, PLACEHOLDER, IntText(n)), EditedNodes(m.nodes, PLACEHOLDER, IntText(n), Number(n)))
  }

  /** Names that contain nothing that the edits look for. */
  predicate PlainFunction(processing: string) {
    '*' !in processing && '}' !in processing
  }

  function EditedIndex(m: Metric, processing: string): string
    requires Known(m.nodes)
  {
    IndexIn(TemplateText(m, processing), INDEXES)
  }

  /** A query node as it is sent: its first known index narrowed and its interval filled in. */
  function SentQuery(q: Query, index: string, to: string, n: int): Query {
    EditedQuery(EditedQuery(q, index, to), PLACEHOLDER, IntText(n))
  }

  function SentQueries(qs: seq<Query>, index: string, to: string, n: int): (r: seq<Query>)
    ensures |r| == |qs| && forall i :: 0 <= i < |qs| ==> r[i] == SentQuery(qs[i], index, to, n)
  {
    seq(|qs|, i requires 0 <= i < |qs| => SentQuery(qs[i], index, to, n))
  }

  lemma {:induction false} NarrowedTemplate(m: Metric, processing: string, index: string, to: string)
    requires Known(m.nodes) && PlainFunction(processing) && (index == "" || index in INDEXES)
    ensures var e := NarrowedMetric(m, index, to);
            Known(e.nodes) && Queries(e.nodes) == EditedQueries(Queries(m.nodes), index, to) &&
            Replace(TemplateText(m, processing), index, to) == TemplateText(e, processing)
  {
    if index != "" {
      IndexIsSeparate(index, to);
      KnownIndexIsFamily(index);
      EditedTemplate(m, processing, index, to, Name("interval"));
    }
  }

  lemma {:induction false} FilledTemplate(m: Metric, processing: string, n: int)
    requires Known(m.nodes) && PlainFunction(processing)
    ensures var e := FilledMetric(m, n);
            Known(e.nodes) && Queries(e.nodes) == EditedQueries(Queries(m.nodes), PLACEHOLDER, IntText(n)) &&
            Replace(TemplateText(m, processing), PLACEHOLDER, IntText(n)) == TemplateText(e, processing)
  {
    PlaceholderIsSeparate(n);
    EditedTemplate(m, processing, PLACEHOLDER, IntText(n), Number(n));
  }

  /** What the label of a metric becomes. */
  function SentName(name: string, index: string, to: string, n: int): string {
    Replace(Replace(name, index, to), PLACEHOLDER, IntText(n))
  }

  /** The text of one metric in the query that is sent reads as its rule's query nodes, edited, in order. */
  lemma {:induction false} SentMetricReads(m: Metric, processing: string, index: string, to: string, n: int)
    requires Known(m.nodes) && PlainFunction(processing) && (index == "" || index in INDEXES)
    requires AllClean(SentQueries(Queries(m.nodes), index, to, n), processing)
    requires CleanLabel(SentName(m.name, index, to, n))
    ensures Reads(Replace(Replace(TemplateText(m, processing), index, to), PLACEHOLDER, IntText(n)),
                  SentQueries(Queries(m.nodes), index, to, n), processing)
  {
    var a := NarrowedMetric(m, index, to);
    var b := FilledMetric(a, n);
    var qs := SentQueries(Queries(m.nodes), index, to, n);
    NarrowedTemplate(m, processing, index, to);
    FilledTemplate(a, processing, n);
    assert Queries(b.nodes) == qs;
    CompilesIffKnown(b.nodes, processing, "");
    CompiledReadsQueries(b.nodes, processing);
    ReadsLabelled(Compile(b.nodes, processing, "").value, b.name, qs, processing);
  }

  // ----- The request -----

  /** The pattern that takes the place of a metric's first known index. */
  function NewIndex(m: Metric, processing: string, fromT: string, toT: string): string
    requires Known(m.nodes) && IsTimeText(fromT) && IsTimeText(toT)
  {
    Narrowed(EditedIndex(m, processing), DateParts(fromT), DateParts(toT))
  }

  /** The query nodes of a metric as they are sent. */
  function MetricQueries(m: Metric, processing: string, fromT: string, toT: string, n: int): seq<Query>
    requires Known(m.nodes) && IsTimeText(fromT) && IsTimeText(toT)
  {
    SentQueries(Queries(m.nodes), EditedIndex(m, processing), NewIndex(m, processing, fromT, toT), n)
  }

  /** Neither a field nor a label of the metric, as it is sent, looks like the start of another fragment. */
  predicate SendsClean(m: Metric, processing: string, fromT: string, toT: string, n: int)
    requires IsTimeText(fromT) && IsTimeText(toT)
  {
    && Known(m.nodes)
    && AllClean(MetricQueries(m, processing, fromT, toT, n), processing)
    && CleanLabel(SentName(m.name, EditedIndex(m, processing), NewIndex(m, processing, fromT, toT), n))
  }

  /** The panel offers, under the requested names, the templates of these metrics. */
  ghost predicate Offers(panel: map<string, string>, metricList: seq<string>, ms: seq<Metric>, processing: string) {
    && |ms| == |metricList| && Offered(panel, metricList)
    && forall i :: 0 <= i < |ms| ==> Known(ms[i].nodes) && panel[metricList[i]] == TemplateText(ms[i], processing)
  }

  function RequestQueries(ms: seq<Metric>, processing: string, fromT: string, toT: string, n: int): (r: seq<seq<Query>>)
    requires IsTimeText(fromT) && IsTimeText(toT) && forall i :: 0 <= i < |ms| ==> Known(ms[i].nodes)
    ensures |r| == |ms| && forall i :: 0 <= i < |ms| ==> r[i] == MetricQueries(ms[i], processing, fromT, toT, n)
  {
    seq(|ms|, i requires 0 <= i < |ms| => MetricQueries(ms[i], processing, fromT, toT, n))
  }

  lemma {:induction false} IntervalDigits(n: int)
    ensures Replace(IntText(n) + "s", "s", "") == IntText(n)
  {
    var digits := Decimal(if n < 0 then -n else n);
    assert 's' !in digits;
    ReplaceLast(IntText(n), 's', "");
    assert IntText(n) + ['s'] == IntText(n) + "s" && IntText(n) + "" == IntText(n);
  }

  /**
   * The fragments of the query that is sent are, from left to right, the query nodes of the
   * requested metrics in order, each with its first known index narrowed and its interval filled in.
   */
  lemma {:induction false} SentQueryReads(panel: map<string, string>, metricList: seq<string>, ms: seq<Metric>,
                                          processing: string, fromT: string, toT: string, n: int)
    requires metricList != [] && PlainFunction(processing) && IsTimeText(fromT) && IsTimeText(toT)
    requires Offers(panel, metricList, ms, processing)
    requires forall i :: 0 <= i < |ms| ==> SendsClean(ms[i], processing, fromT, toT, n)
    ensures Reads(WithInterval(RequestText(NarrowedMetrics(panel, metricList, fromT, toT)), IntText(n) + "s"),
                  Flat(RequestQueries(ms, processing, fromT, toT, n)), processing)
  {
    var texts := NarrowedMetrics(panel, metricList, fromT, toT);
    var sent := Edited(texts, PLACEHOLDER, IntText(n));
    var qss := RequestQueries(ms, processing, fromT, toT, n);
    IntervalDigits(n);
    PlaceholderIsSeparate(n);
    EditedRequest(texts, PLACEHOLDER, IntText(n));
    forall i | 0 <= i < |sent| ensures Reads(sent[i], qss[i], processing) {
      IndexInIs(TemplateText(ms[i], processing), INDEXES);
      SentMetricReads(ms[i], processing, EditedIndex(ms[i], processing), NewIndex(ms[i], processing, fromT, toT), n);
    }
    ReadsRequest(sent, qss, processing);
  }

  // ----- The indexes that are read -----

  /** A text that can only occur at the end, and does not, is not there to be replaced. */
  lemma {:induction false} ReplaceNotAtEnd(s: string, needle: string, to: string)
    requires needle != "" && s != "" && needle[|needle| - 1] !in s[..|s| - 1]
    requires |s| < |needle| || s[|s| - |needle|..] != needle
    ensures Replace(s, needle, to) == s
  {
    if |needle| <= |s| - 1 {
      assert s[..|s| - 1][|needle| - 1] == s[|needle| - 1];
    } else if |needle| == |s| {
      assert s[0..] == s;
    }
    assert !(needle <= s);
    assert [s[0]] + s[1..] == s;
    if |s| > 1 {
      assert s[1..][..|s| - 2] == s[..|s| - 1][1..];
      if |needle| <= |s| - 1 {
        assert s[1..][|s| - 1 - |needle|..] == s[|s| - |needle|..];
      }
      ReplaceNotAtEnd(s[1..], needle, to);
    } else {
      assert s[1..] == "";
    }
  }

  lemma {:induction false} OtherIndexStays(index: string, other: string, to: string)
    requires index in INDEXES && (other == "" || (other in INDEXES && other != index))
    ensures Replace(index, other, to) == index
  {
    if other != "" {
      KnownIndexIsFamily(index);
      KnownIndexIsFamily(other);
      assert |index| < |other| || index[|index| - |other|..] != other by {
        if |other| <= |index| {
          assert index[|index| - |other|..][|other| - 3] == index[|index| - 3];
        }
      }
      ReplaceNotAtEnd(index, other, to);
    }
  }

  lemma {:induction false} KeptTextHasNoBrace(f: Date, t: Date)
    requires Printable(t)
    ensures '}' !in KeptText(f, t)
  {
    PartsFree(t, '}');
  }

  lemma {:induction false} NarrowedHasNoBrace(stem: string, f: Date, t: Date)
    requires '*' !in stem && '}' !in stem && Printable(f) && Printable(t)
    ensures '}' !in Narrowed(stem + "*", Parts(f), Parts(t))
  {
    var to := KeptText(f, t) + if f != t then "*" else "";
    NarrowedText(stem, f, t);
    KeptTextHasNoBrace(f, t);
    assert '}' !in to;
    ReplaceLast(stem, '*', to);
    assert '}' !in stem + to;
  }

  lemma {:induction false} SentNarrowed(index: string, f: Date, t: Date, n: int)
    requires index in INDEXES && Printable(f) && Printable(t)
    ensures var to := Narrowed(index, Parts(f), Parts(t));
            Replace(Replace(index, index, to), PLACEHOLDER, IntText(n)) == to
  {
    var to := Narrowed(index, Parts(f), Parts(t));
    KnownIndexChars(index);
    KnownIndexIsFamily(index);
    NarrowedHasNoBrace(index[..|index| - 1], f, t);
    assert index[|index|..] == "" && to + "" == to;
    ReplaceAbsent(to, PLACEHOLDER, IntText(n));
  }

  lemma {:induction false} SentOther(index: string, other: string, to: string, n: int)
    requires index in INDEXES && (other == "" || (other in INDEXES && other != index))
    ensures Replace(Replace(index, other, to), PLACEHOLDER, IntText(n)) == index
  {
    OtherIndexStays(index, other, to);
    KnownIndexChars(index);
    ReplaceAbsent(index, PLACEHOLDER, IntText(n));
  }

  /** The narrowed index itself, for two dates and any day that they keep. */
  lemma {:induction false} SentNarrowedCovers(q: Query, f: Date, t: Date, x: Date, n: int)
    requires q.index in INDEXES && Printable(f) && Printable(t) && Printable(x) && Kept(f, t, x)
    ensures Glob(SentQuery(q, q.index, Narrowed(q.index, Parts(f), Parts(t)), n).index,
                 q.index[..|q.index| - 1] + DateText(x))
  {
    KnownIndexIsFamily(q.index);
    SentNarrowed(q.index, f, t, n);
    NarrowingExact(q.index[..|q.index| - 1], f, t, x);
  }

  /** An index that is not the narrowed one is sent as it is, and matches its whole family. */
  lemma {:induction false} SentOtherCovers(q: Query, index: string, to: string, n: int, day: string)
    requires q.index in INDEXES && (index == "" || (index in INDEXES && index != q.index))
    ensures Glob(SentQuery(q, index, to, n).index, q.index[..|q.index| - 1] + day)
  {
    var stem := q.index[..|q.index| - 1];
    KnownIndexIsFamily(q.index);
    SentOther(q.index, index, to, n);
    GlobSameStem(stem, "", true, day);
    assert stem + ("" + "*") == q.index;
  }

  lemma {:induction false} SentDayCovered(q: Query, index: string, f: Date, t: Date, x: Date, n: int)
    requires q.index in INDEXES && (index == "" || index in INDEXES)
    requires Printable(f) && Printable(t) && Printable(x) && Kept(f, t, x)
    ensures Glob(SentQuery(q, index, Narrowed(index, Parts(f), Parts(t)), n).index,
                 q.index[..|q.index| - 1] + DateText(x))
  {
    if index == q.index {
      SentNarrowedCovers(q, f, t, x, n);
    } else {
      SentOtherCovers(q, index, Narrowed(index, Parts(f), Parts(t)), n, DateText(x));
    }
  }

  /**
   * Whatever known index a query node reads, and whichever one was narrowed, the pattern that
   * is sent matches every daily index of its family from the window's first to its last day.
   */
  lemma {:induction false} SentIndexCovers(q: Query, index: string, w: Window, fromClock: string, toClock: string,
                                           n: int, day: nat)
    requires q.index in INDEXES && (index == "" || index in INDEXES)
    requires w.from_ < w.to && HasDate(w.from_) && HasDate(w.to) && DayOf(w.from_) <= day <= DayOf(w.to)
    ensures DateOf(day).year < 10000
    ensures var f, t := DateParts(TimeText(w.from_, fromClock)), DateParts(TimeText(w.to, toClock));
            |f| == 3 && |t| == 3 &&
            Glob(SentQuery(q, index, Narrowed(index, f, t), n).index, q.index[..|q.index| - 1] + DayText(day))
  {
    DaysKept(w.from_, w.to, day);
    DatePartsOfIso(DateOf(DayOf(w.from_)), fromClock);
    DatePartsOfIso(DateOf(DayOf(w.to)), toClock);
    SentDayCovered(q, index, DateOf(DayOf(w.from_)), DateOf(DayOf(w.to)), DateOf(day), n);
  }

  // ----- From an accepted window to the query that is sent -----

  /** A pattern that matches every daily index of a known index's family in the window. */
  ghost predicate Covers(pattern: string, index: string, w: Window)
    requires index in INDEXES
  {
    KnownIndexIsFamily(index);
    forall day: nat :: DayOf(w.from_) <= day <= DayOf(w.to) ==>
      DateOf(day).year < 10000 && Glob(pattern, index[..|index| - 1] + DayText(day))
  }

  function WindowText(seconds: int, clock: string): (r: string)
    requires HasDate(seconds)
    ensures IsTimeText(r)
  {
    var d := DateOf(DayOf(seconds));
    DatePartsOfIso(d, clock);
    PartsFree(d, '(');
    PartsFree(d, ')');
    TimeText(seconds, clock)
  }

  /**
   * For every accepted window, the fragments of the query that is sent are the query nodes of the
   * requested metrics in order, edited, and each that reads a known index still matches the daily
   * index of every day of the window.
   */
  lemma {:induction false} SentRequestReadsWindow(
      from_: Arg, to: Arg, interval: Arg, totalSample: Arg, storageInterval: int, offset: int, w: Window,
      fromClock: string, toClock: string,
      panel: map<string, string>, metricList: seq<string>, ms: seq<Metric>, processing: string)
    requires ParseInterval(from_, to, interval, totalSample, storageInterval, offset) == Ok(w)
    requires HasDate(w.from_) && HasDate(w.to)
    requires metricList != [] && PlainFunction(processing) && Offers(panel, metricList, ms, processing)
    requires var f, t := WindowText(w.from_, fromClock), WindowText(w.to, toClock);
             forall i :: 0 <= i < |ms| ==> SendsClean(ms[i], processing, f, t, w.interval)
    ensures var f, t := WindowText(w.from_, fromClock), WindowText(w.to, toClock);
            var sent := RequestQueries(ms, processing, f, t, w.interval);
            && Reads(WithInterval(RequestText(NarrowedMetrics(panel, metricList, f, t)), IntText(w.interval) + "s"),
                     Flat(sent), processing)
            && forall i, j :: 0 <= i < |ms| && 0 <= j < |sent[i]| ==>
                 |sent[i]| == |Queries(ms[i].nodes)| &&
                 var index := Queries(ms[i].nodes)[j].index;
                 index in {"statsd_timerdata-*", "statsd_counter-*", "statsd_gauge-*"} ==>
                   Covers(sent[i][j].index, index, w)
  {
    var f, t := WindowText(w.from_, fromClock), WindowText(w.to, toClock);
    var sent: seq<seq<Query>> := RequestQueries(ms, processing, f, t, w.interval);
    SentQueryReads(panel, metricList, ms, processing, f, t, w.interval);
    forall i: nat, j: nat | i < |ms| && j < |sent[i]| && Queries(ms[i].nodes)[j].index in INDEXES
      ensures Covers(sent[i][j].index, Queries(ms[i].nodes)[j].index, w)
    {
      MetricCovers(ms[i], processing, w, fromClock, toClock, j);
    }
  }

  lemma {:induction false} MetricCovers(m: Metric, processing: string, w: Window, fromClock: string, toClock: string,
                                        j: nat)
    requires Known(m.nodes) && w.from_ < w.to && HasDate(w.from_) && HasDate(w.to)
    requires j < |Queries(m.nodes)| && Queries(m.nodes)[j].index in INDEXES
    ensures var f, t := WindowText(w.from_, fromClock), WindowText(w.to, toClock);
            Covers(MetricQueries(m, processing, f, t, w.interval)[j].index, Queries(m.nodes)[j].index, w)
  {
    IndexInIs(TemplateText(m, processing), INDEXES);
    forall day: nat | DayOf(w.from_) <= day <= DayOf(w.to)
      ensures var f, t := WindowText(w.from_, fromClock), WindowText(w.to, toClock);
              var index := Queries(m.nodes)[j].index;
              DateOf(day).year < 10000 && index != "" &&
              Glob(MetricQueries(m, processing, f, t, w.interval)[j].index, index[..|index| - 1] + DayText(day))
    {
      KnownIndexIsFamily(Queries(m.nodes)[j].index);
      SentIndexCovers(Queries(m.nodes)[j], EditedIndex(m, processing), w, fromClock, toClock, w.interval, day);
    }
  }
}
