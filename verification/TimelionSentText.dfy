/** The query that is sent, character by character. */
module TimelionSentText {
  import opened Prelude
  import opened Text
  import opened Timelion
  import opened TimelionProofs
  import opened TimelionRequest
  import opened TimelionWindow
  import opened TimelionText
  import opened TimelionSent

  // ----- Tokens of an edited rule -----

  /** A token with its fields edited, and with what stands for the interval in its place. */
  function EditedToken(t: Token, needle: string, to: string, interval: string): Token {
    match t
    case Fragment(q) => Fragment(EditedQuery(q, needle, to))
    case Argument(text) => if text == "${interval}" then Argument(interval) else t
    case Call(_) => t
  }

  function EditedTokens(ts: seq<Token>, needle: string, to: string, interval: string): (r: seq<Token>)
    ensures |r| == |ts| && forall i :: 0 <= i < |ts| ==> r[i] == EditedToken(ts[i], needle, to, interval)
  {
    seq(|ts|, i requires 0 <= i < |ts| => EditedToken(ts[i], needle, to, interval))
  }

  lemma {:induction false} EditedTokensConcat(a: seq<Token>, b: seq<Token>, needle: string, to: string, interval: string)
    ensures EditedTokens(a + b, needle, to, interval) ==
            EditedTokens(a, needle, to, interval) + EditedTokens(b, needle, to, interval)
  {
  }

  function ConfigText(config: Node): string {
    if config.Number? then IntText(config.n) else "${interval}"
  }

  lemma {:induction false} NodeTokensEdited(node: Node, needle: string, to: string, config: Node)
    requires Stands(config, needle, to) && NodeKnown(node)
    ensures NodeTokens(EditedNode(node, needle, to, config)) ==
            EditedTokens(NodeTokens(node), needle, to, ConfigText(config))
    decreases node, 0
  {
    match node
    case Operator(val, children) =>
      if val in METRIC_SET {
        TokensEdited(children, needle, to, config);
        EditedTokensConcat(Tokens(children), [Call(if val == "+" then "sum" else "divide")], needle, to,
                           ConfigText(config));
      }
    case Number(n) => NumberIsNoPlaceholder(n);
    case _ =>
  }

  lemma {:induction false} NumberIsNoPlaceholder(n: int)
    ensures IntText(n) != "${interval}"
  {
    var digits := Decimal(if n < 0 then -n else n);
    assert digits[0] in digits && IntText(n)[0] != '$';
  }

  lemma {:induction false} TokensEdited(nodes: seq<Node>, needle: string, to: string, config: Node)
    requires Stands(config, needle, to) && Known(nodes)
    ensures Tokens(EditedNodes(nodes, needle, to, config)) ==
            EditedTokens(Tokens(nodes), needle, to, ConfigText(config))
    decreases nodes, 1
  {
    if nodes != [] {
      NodeTokensEdited(nodes[0], needle, to, config);
      assert Known(nodes[1..]) by {
        assert forall i :: 0 <= i < |nodes[1..]| ==> nodes[1..][i] == nodes[i + 1];
      }
      TokensEdited(nodes[1..], needle, to, config);
      EditedFirst(nodes, needle, to, config);
      EditedTokensConcat(NodeTokens(nodes[0]), Tokens(nodes[1..]), needle, to, ConfigText(config));
    }
  }

  // ----- The text of a metric -----

  /** A token as it is sent: the first known index narrowed, and the interval in digits. */
  function SentToken(t: Token, index: string, to: string, n: int): Token {
    match t
    case Fragment(q) => Fragment(SentQuery(q, index, to, n))
    case Argument(text) => if text == "${interval}" then Argument(IntText(n)) else t
    case Call(_) => t
  }

  function SentTokens(ts: seq<Token>, index: string, to: string, n: int): (r: seq<Token>)
    ensures |r| == |ts| && forall i :: 0 <= i < |ts| ==> r[i] == SentToken(ts[i], index, to, n)
  {
    seq(|ts|, i requires 0 <= i < |ts| => SentToken(ts[i], index, to, n))
  }

  lemma {:induction false} SentTokensAre(m: Metric, index: string, to: string, n: int)
    requires Known(m.nodes) && (index == "" || index in INDEXES)
    ensures var e := FilledMetric(NarrowedMetric(m, index, to), n);
            Tokens(e.nodes) == SentTokens(Tokens(m.nodes), index, to, n)
  {
    var a := NarrowedMetric(m, index, to);
    PlaceholderIsSeparate(n);
    if index != "" {
      IndexIsSeparate(index, to);
      TokensEdited(m.nodes, index, to, Name("interval"));
    }
    NarrowedKnown(m, index, to);
    TokensEdited(a.nodes, PLACEHOLDER, IntText(n), Number(n));
  }

  lemma {:induction false} NarrowedKnown(m: Metric, index: string, to: string)
    requires Known(m.nodes) && (index == "" || index in INDEXES)
    ensures Known(NarrowedMetric(m, index, to).nodes)
  {
    NarrowedTemplate(m, "", index, to);
  }

  /** The text of one metric as it is sent. */
  function SentMetricText(m: Metric, processing: string, index: string, to: string, n: int): string {
    "(" + Line(SentTokens(Tokens(m.nodes), index, to, n), processing) + ").label(" + SentName(m.name, index, to, n) + ")"
  }

  lemma {:induction false} SentMetricIs(m: Metric, processing: string, index: string, to: string, n: int)
    requires Known(m.nodes) && PlainFunction(processing) && (index == "" || index in INDEXES)
    ensures Replace(Replace(TemplateText(m, processing), index, to), PLACEHOLDER, IntText(n)) ==
            SentMetricText(m, processing, index, to, n)
  {
    var a := NarrowedMetric(m, index, to);
    var b := FilledMetric(a, n);
    NarrowedTemplate(m, processing, index, to);
    FilledTemplate(a, processing, n);
    CompiledIs(b.nodes, processing);
    SentTokensAre(m, index, to, n);
    assert b.name == SentName(m.name, index, to, n);
  }

  // ----- The text of the query -----

  /** Texts with a comma between any two. */
  function Commas(texts: seq<string>): string {
    if texts == [] then "" else if |texts| == 1 then texts[0] else texts[0] + "," + Commas(texts[1..])
  }

  lemma {:induction false} JoinIsCommas(texts: seq<string>)
    requires texts != []
    ensures Join(texts) == Commas(texts) + ","
  {
    if |texts| == 1 {
      assert texts[1..] == [];
      assert texts[0] + "," + "" == texts[0] + ",";
    } else {
      JoinIsCommas(texts[1..]);
      Regrouped(texts[0] + ",", Commas(texts[1..]), ",");
    }
  }

  lemma {:induction false} RequestIsCommas(texts: seq<string>)
    requires texts != []
    ensures RequestText(texts) == "(" + Commas(texts) + ")"
  {
    JoinIsCommas(texts);
    assert DropLast("(" + (Commas(texts) + ",")) == "(" + Commas(texts);
  }

  /** The texts of the requested metrics as they are sent, in request order. */
  function SentTexts(ms: seq<Metric>, processing: string, fromT: string, toT: string, n: int): (r: seq<string>)
    requires IsTimeText(fromT) && IsTimeText(toT) && forall i :: 0 <= i < |ms| ==> Known(ms[i].nodes)
    ensures |r| == |ms|
    ensures forall i :: 0 <= i < |ms| ==>
              r[i] == SentMetricText(ms[i], processing, EditedIndex(ms[i], processing),
                                     NewIndex(ms[i], processing, fromT, toT), n)
  {
    seq(|ms|, i requires 0 <= i < |ms| =>
      SentMetricText(ms[i], processing, EditedIndex(ms[i], processing), NewIndex(ms[i], processing, fromT, toT), n))
  }

  /**
   * The query that is sent, character by character: in parentheses, with commas between them, the
   * requested metrics, each the labelled post-order of its rule with its first known index narrowed
   * and the digits of the interval wherever the rule names it.
   */
  lemma {:induction false} SentQueryIs(panel: map<string, string>, metricList: seq<string>, ms: seq<Metric>,
                                       processing: string, fromT: string, toT: string, n: int)
    requires metricList != [] && PlainFunction(processing) && IsTimeText(fromT) && IsTimeText(toT)
    requires Offers(panel, metricList, ms, processing)
    ensures WithInterval(RequestText(NarrowedMetrics(panel, metricList, fromT, toT)), IntText(n) + "s") ==
            "(" + Commas(SentTexts(ms, processing, fromT, toT, n)) + ")"
  {
    var texts := NarrowedMetrics(panel, metricList, fromT, toT);
    var sent := Edited(texts, PLACEHOLDER, IntText(n));
    IntervalDigits(n);
    PlaceholderIsSeparate(n);
    EditedRequest(texts, PLACEHOLDER, IntText(n));
    forall i | 0 <= i < |sent|
      ensures sent[i] == SentTexts(ms, processing, fromT, toT, n)[i]
    {
      IndexInIs(TemplateText(ms[i], processing), INDEXES);
      SentMetricIs(ms[i], processing, EditedIndex(ms[i], processing), NewIndex(ms[i], processing, fromT, toT), n);
    }
    assert sent == SentTexts(ms, processing, fromT, toT, n);
    RequestIsCommas(sent);
  }

  /** A panel that compiles offers each metric's template under its name, unless a later metric has the same name. */
  lemma {:induction false} PanelOffers(ms: seq<Metric>, processing: string, i: nat)
    requires Templates(ms, processing).Ok? && i < |ms|
    requires forall j :: i < j < |ms| ==> ms[j].name != ms[i].name
    ensures Known(ms[i].nodes)
    ensures var panel := Templates(ms, processing).value;
            ms[i].name in panel && panel[ms[i].name] == TemplateText(ms[i], processing)
  {
    var n := |ms| - 1;
    if i < n {
      PanelOffers(ms[..n], processing, i);
    } else {
      CompilesIffKnown(ms[i].nodes, processing, "");
    }
  }

  /**
   * For every accepted window, the query that is sent shows the interval of the request wherever a
   * rule names it: the one that was asked for, the storage interval when nothing was asked for, or
   * the length that divides the window into the requested number of samples.
   */
  lemma {:induction false} SentRequestIs(
      from_: Arg, to: Arg, interval: Arg, totalSample: Arg, storageInterval: int, offset: int, w: Window,
      fromClock: string, toClock: string,
      panel: map<string, string>, metricList: seq<string>, ms: seq<Metric>, processing: string)
    requires ParseInterval(from_, to, interval, totalSample, storageInterval, offset) == Ok(w)
    requires HasDate(w.from_) && HasDate(w.to)
    requires metricList != [] && PlainFunction(processing) && Offers(panel, metricList, ms, processing)
    ensures AskedFor(interval, totalSample, storageInterval, to.n - from_.n, w.interval)
    ensures var f, t := WindowText(w.from_, fromClock), WindowText(w.to, toClock);
            WithInterval(RequestText(NarrowedMetrics(panel, metricList, f, t)), IntText(w.interval) + "s") ==
            "(" + Commas(SentTexts(ms, processing, f, t, w.interval)) + ")"
  {
    SentQueryIs(panel, metricList, ms, processing,
                WindowText(w.from_, fromClock), WindowText(w.to, toClock), w.interval);
  }
}
