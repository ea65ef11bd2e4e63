/** The statistics provider: compiled panels, the time window of a request, and the request's query. */
module TimelionRequest {
  import opened Prelude
  import opened Text
  import opened Parens
  import opened Timelion
  import opened TimelionProofs
  import opened TimelionWindow

  datatype Metric = Metric(name: string, nodes: seq<Node>)
  datatype Panel = Panel(name: string, processing: string, metrics: seq<Metric>)

  function Labelled(query: string, name: string): string {
    "(" + query + ").label(" + name + ")"
  }

  lemma {:induction false} LabelledDepth(query: string, name: string)
    requires Balanced(name)
    ensures Depth(Labelled(query, name)) == Depth(query)
    ensures Balanced(query) ==> Balanced(Labelled(query, name))
  {
    var tail := ".label" + ("(" + name + ")" + "");
    Enclosed(name, "");
    PlainIsBalanced(".label");
    BalancedConcat(".label", "(" + name + ")" + "");
    Enclosed(query, tail);
    LabelledParts(query, name);
  }

  lemma {:induction false} LabelledParts(query: string, name: string)
    ensures Labelled(query, name) == "(" + query + ")" + (".label" + ("(" + name + ")" + ""))
  {
  }

  /** The name and all template fields of a metric are balanced, and no literal comes first in its rule. */
  predicate WellFormed(m: Metric, processing: string) {
    Balanced(m.name) && Balanced(processing) && AllBalanced(Queries(m.nodes)) && !Leads(m.nodes)
  }

  lemma {:induction false} TemplateBalancedIff(m: Metric, processing: string)
    requires Compile(m.nodes, processing, "").Ok?
    requires Balanced(m.name) && Balanced(processing) && AllBalanced(Queries(m.nodes))
    ensures Balanced(Labelled(Compile(m.nodes, processing, "").value, m.name)) <==> !Leads(m.nodes)
  {
    CompileOutcome(m.nodes, processing, "");
    LabelledDepth(Compile(m.nodes, processing, "").value, m.name);
  }

  /** The templates of the metrics; a later metric of the same name takes the place of an earlier one. */
  function Templates(ms: seq<Metric>, processing: string): Result<map<string, string>> {
    if ms == [] then Ok(map[])
    else
      var m := ms[|ms| - 1];
      var before :- Templates(ms[..|ms| - 1], processing);
      var query :- Compile(m.nodes, processing, "");
      Ok(before[m.name := Labelled(query, m.name)])
  }

  method InitPanel(panel: Panel) returns (r: Result<map<string, string>>)
    ensures r.Ok? <==> Templates(panel.metrics, panel.processing).Ok?
    ensures r.Ok? ==> r == Templates(panel.metrics, panel.processing)
  {
    var ms := panel.metrics;
    var templates: map<string, string> := map[];
    var n := 0;
    while n < |ms|
      invariant 0 <= n <= |ms|
      invariant Templates(ms[..n], panel.processing) == Ok(templates)
    {
      var query := Parse(ms[n].nodes, panel.processing, "");
      assert ms[..n + 1][..n] == ms[..n];
      if query.Err? {
        TemplatesFail(ms, panel.processing, n);
        return Err(InternalError);
      }
      templates := templates[ms[n].name := Labelled(query.value, ms[n].name)];
      n := n + 1;
    }
    assert ms[..n] == ms;
    return Ok(templates);
  }

  lemma {:induction false} TemplatesFail(ms: seq<Metric>, processing: string, n: nat)
    requires n < |ms| && Compile(ms[n].nodes, processing, "").Err?
    ensures Templates(ms, processing).Err?
  {
    if n < |ms| - 1 {
      TemplatesFail(ms[..|ms| - 1], processing, n);
    }
  }

  /** Over well-formed metrics, every template of a panel is balanced. */
  lemma {:induction false} TemplatesBalanced(ms: seq<Metric>, processing: string, name: string)
    requires forall i :: 0 <= i < |ms| ==> WellFormed(ms[i], processing)
    requires Templates(ms, processing).Ok? && name in Templates(ms, processing).value
    ensures Balanced(Templates(ms, processing).value[name])
  {
    var m := ms[|ms| - 1];
    if name == m.name {
      TemplateBalancedIff(m, processing);
    } else {
      TemplatesBalanced(ms[..|ms| - 1], processing, name);
    }
  }

  // ----- The request -----

  function Join(texts: seq<string>): string {
    if texts == [] then "" else texts[0] + "," + Join(texts[1..])
  }

  lemma {:induction false} JoinSnoc(texts: seq<string>, t: string)
    ensures Join(texts + [t]) == Join(texts) + t + ","
  {
    if texts == [] {
      assert texts + [t] == [t];
      assert [t][1..] == [];
      assert t + "," + "" == "" + t + ",";
    } else {
      JoinSnoc(texts[1..], t);
      assert (texts + [t])[1..] == texts[1..] + [t];
      assert texts[0] + "," + (Join(texts[1..]) + t + ",") == texts[0] + "," + Join(texts[1..]) + t + ",";
    }
  }

  lemma {:induction false} JoinBalanced(texts: seq<string>)
    requires forall i :: 0 <= i < |texts| ==> Balanced(texts[i])
    ensures Balanced(Join(texts))
    ensures texts != [] ==> Join(texts) != "" && Join(texts)[|Join(texts)| - 1] == ','
  {
    if texts != [] {
      JoinBalanced(texts[1..]);
      PlainIsBalanced(",");
      BalancedConcat(texts[0], ",");
      BalancedConcat(texts[0] + ",", Join(texts[1..]));
    }
  }

  /** The joined metrics, with the last separator turned into the closing parenthesis. */
  function RequestText(texts: seq<string>): string {
    DropLast("(" + Join(texts)) + ")"
  }

  /** A request over balanced metrics is balanced exactly when there is a metric. */
  lemma {:induction false} RequestBalancedIff(texts: seq<string>)
    requires forall i :: 0 <= i < |texts| ==> Balanced(texts[i])
    ensures Balanced(RequestText(texts)) <==> texts != []
  {
    JoinBalanced(texts);
    if texts != [] {
      var inner := DropLast(Join(texts));
      assert Join(texts) == inner + ",";
      Concat(inner, ",");
      Enclosed(inner, "");
      assert DropLast("(" + Join(texts)) + ")" == "(" + inner + ")" + "";
    }
  }

  lemma {:induction false} ReplaceStaysPlain(s: string, needle: string, to: string)
    requires Plain(s) && Plain(to)
    ensures Plain(Replace(s, needle, to))
    decreases |s|
  {
    if s != "" && needle != "" {
      var n := if needle <= s then |needle| else 1;
      forall x | x in s[n..] ensures x in s {}
      assert s[0] in s;
      ReplaceStaysPlain(s[n..], needle, to);
    }
  }

  /** A time text whose date is three components without parentheses. */
  predicate IsTimeText(s: string) {
    |DateParts(s)| == 3 && forall i :: 0 <= i < 3 ==> Plain(DateParts(s)[i])
  }

  lemma {:induction false} NarrowedPlain(index: string, f: seq<string>, t: seq<string>)
    requires Plain(index) && |f| == 3 && |t| == 3
    requires forall i :: 0 <= i < 3 ==> Plain(f[i]) && Plain(t[i])
    ensures Plain(Narrowed(index, f, t))
  {
    ReplaceStaysPlain(index, "*", f[0] + "." + f[1] + "." + f[2]);
    ReplaceStaysPlain(index, "*", t[0] + "." + t[1] + ".*");
    ReplaceStaysPlain(index, "*", t[0] + ".*");
  }

  lemma {:induction false} IndexInPlain(metric: string, indexes: seq<string>)
    requires forall i :: 0 <= i < |indexes| ==> Plain(indexes[i])
    ensures Plain(IndexIn(metric, indexes))
  {
    if indexes != [] {
      IndexInPlain(metric, indexes[1..]);
    }
  }

  /** Narrowing its index keeps a metric balanced. */
  lemma {:induction false} NarrowingBalanced(metric: string, fromT: string, toT: string)
    requires IsTimeText(fromT) && IsTimeText(toT)
    ensures Balanced(UpdatedIndex(metric, DateParts(fromT), DateParts(toT))) <==> Balanced(metric)
  {
    IndexInPlain(metric, INDEXES);
    var index := IndexIn(metric, INDEXES);
    NarrowedPlain(index, DateParts(fromT), DateParts(toT));
    ReplacePlain(metric, index, Narrowed(index, DateParts(fromT), DateParts(toT)));
  }

  class TimelionProvider {
    var templates: map<string, map<string, string>>

    constructor ()
      ensures templates == map[]
    {
      templates := map[];
    }

    ghost predicate AllBalancedTemplates()
      reads this
    {
      forall p, m :: p in templates && m in templates[p] ==> Balanced(templates[p][m])
    }

    /** Compiles every panel of the rule file, whose panels have distinct names. */
    method Init(rules: seq<Panel>) returns (r: Result<()>)
      requires forall i, j :: 0 <= i < j < |rules| ==> rules[i].name != rules[j].name
      modifies this
      ensures r.Ok? <==> forall i :: 0 <= i < |rules| ==> PanelTemplates(rules[i]).Ok?
      ensures r.Ok? ==> forall p :: p in templates <==> exists i :: 0 <= i < |rules| && rules[i].name == p
      ensures r.Ok? ==> forall i :: 0 <= i < |rules| ==> Ok(templates[rules[i].name]) == PanelTemplates(rules[i])
      ensures r.Ok? && (forall i :: 0 <= i < |rules| ==> WellFormedPanel(rules[i])) ==> AllBalancedTemplates()
    {
      templates := map[];
      var n := 0;
      while n < |rules|
        invariant 0 <= n <= |rules|
        invariant forall i :: 0 <= i < n ==> PanelTemplates(rules[i]).Ok?
        invariant forall p :: p in templates <==> exists i :: 0 <= i < n && rules[i].name == p
        invariant forall i :: 0 <= i < n ==> Ok(templates[rules[i].name]) == PanelTemplates(rules[i])
      {
        var panel := InitPanel(rules[n]);
        if panel.Err? {
          return Err(InternalError);
        }
        templates := templates[rules[n].name := panel.value];
        n := n + 1;
      }
      if forall i :: 0 <= i < |rules| ==> WellFormedPanel(rules[i]) {
        forall p, m | p in templates && m in templates[p] ensures Balanced(templates[p][m]) {
          var i :| 0 <= i < |rules| && rules[i].name == p;
          TemplatesBalanced(rules[i].metrics, rules[i].processing, m);
        }
      }
      return Ok(());
    }

    /** The query of a request; a query of the caller's takes the place of the joined metrics. */
    method AggregateMetric(panel: string, fromT: string, toT: string, interval: string,
                           metricList: seq<string>, query: string) returns (r: Result<string>)
      requires IsTimeText(fromT) && IsTimeText(toT)
      ensures r.Ok? <==> panel in templates && (query == "" ==> Offered(templates[panel], metricList))
      ensures r.Ok? ==>
                r.value == WithInterval(if query != "" then query
                                        else RequestText(NarrowedMetrics(templates[panel], metricList, fromT, toT)),
                                        interval)
    {
      if panel !in templates {
        return Err(InternalError);
      }
      var text := query;
      if query == "" {
        var joined :- JoinMetrics(templates[panel], metricList, fromT, toT);
        text := joined;
      }
      return Ok(WithInterval(text, interval));
    }
  }

  lemma {:induction false} Regroup(a: string, b: string, c: string, d: string)
    ensures a + b + c + d == a + (b + c + d)
  {
  }

  lemma {:induction false} JoinNext(panel: map<string, string>, metricList: seq<string>, n: nat,
                                    fromT: string, toT: string)
    requires IsTimeText(fromT) && IsTimeText(toT) && n < |metricList|
    requires Offered(panel, metricList[..n]) && metricList[n] in panel
    ensures Offered(panel, metricList[..n + 1])
    ensures Join(NarrowedMetrics(panel, metricList[..n + 1], fromT, toT)) ==
            Join(NarrowedMetrics(panel, metricList[..n], fromT, toT))
            + UpdatedIndex(panel[metricList[n]], DateParts(fromT), DateParts(toT)) + ","
  {
    var before := NarrowedMetrics(panel, metricList[..n], fromT, toT);
    var part := UpdatedIndex(panel[metricList[n]], DateParts(fromT), DateParts(toT));
    assert metricList[..n + 1] == metricList[..n] + [metricList[n]];
    assert NarrowedMetrics(panel, metricList[..n + 1], fromT, toT) == before + [part];
    JoinSnoc(before, part);
  }

  method JoinMetrics(panel: map<string, string>, metricList: seq<string>, fromT: string, toT: string)
    returns (r: Result<string>)
    requires IsTimeText(fromT) && IsTimeText(toT)
    ensures r.Ok? <==> Offered(panel, metricList)
    ensures r.Ok? ==> r.value == RequestText(NarrowedMetrics(panel, metricList, fromT, toT))
  {
    var text := "(";
    var n := 0;
    while n < |metricList|
      invariant 0 <= n <= |metricList|
      invariant Offered(panel, metricList[..n])
      invariant text == "(" + Join(NarrowedMetrics(panel, metricList[..n], fromT, toT))
    {
      if metricList[n] !in panel {
        return Err(InternalError);
      }
      var part := UpdateIndex(panel[metricList[n]], fromT, toT);
      JoinNext(panel, metricList, n, fromT, toT);
      Regroup("(", Join(NarrowedMetrics(panel, metricList[..n], fromT, toT)), part, ",");
      text := text + part + ",";
      n := n + 1;
    }
    assert metricList[..n] == metricList;
    return Ok(DropLast(text) + ")");
  }

  function PanelTemplates(p: Panel): Result<map<string, string>> {
    Templates(p.metrics, p.processing)
  }

  predicate WellFormedPanel(p: Panel) {
    forall j :: 0 <= j < |p.metrics| ==> WellFormed(p.metrics[j], p.processing)
  }

  predicate Offered(panel: map<string, string>, metricList: seq<string>) {
    forall i :: 0 <= i < |metricList| ==> metricList[i] in panel
  }

  /** The templates of the requested metrics, in request order, each with its index narrowed. */
  function NarrowedMetrics(panel: map<string, string>, metricList: seq<string>, fromT: string, toT: string)
    : (r: seq<string>)
    requires Offered(panel, metricList) && IsTimeText(fromT) && IsTimeText(toT)
    ensures |r| == |metricList|
  {
    seq(|metricList|, i requires 0 <= i < |metricList| =>
      UpdatedIndex(panel[metricList[i]], DateParts(fromT), DateParts(toT)))
  }

  /** The number of seconds in place of the interval's placeholder. */
  function WithInterval(text: string, interval: string): string {
    Replace(text, "${interval}", Replace(interval, "s", ""))
  }

  /** The query sent for balanced templates is balanced exactly when a metric is requested. */
  lemma {:induction false} SentQueryBalancedIff(panel: map<string, string>, metricList: seq<string>,
                                                fromT: string, toT: string, interval: string)
    requires Offered(panel, metricList) && IsTimeText(fromT) && IsTimeText(toT) && Plain(interval)
    requires forall m :: m in panel ==> Balanced(panel[m])
    ensures Balanced(WithInterval(RequestText(NarrowedMetrics(panel, metricList, fromT, toT)), interval)) <==>
            metricList != []
  {
    var texts := NarrowedMetrics(panel, metricList, fromT, toT);
    forall i | 0 <= i < |texts| ensures Balanced(texts[i]) {
      NarrowingBalanced(panel[metricList[i]], fromT, toT);
    }
    RequestBalancedIff(texts);
    ReplaceStaysPlain(interval, "s", "");
    ReplacePlain(RequestText(texts), "${interval}", Replace(interval, "s", ""));
  }
}
