/** The compiler from aggregation rules to Timelion queries. */
module Timelion {
  import opened Prelude
  import opened Text

  /** The fields of one time-series fragment. */
  datatype Query = Query(metric: string, timestamp: string, index: string, aggregation: string)

  /** A rule node: a text value with or without child nodes, a number, or a query. */
  datatype Node =
    | Operator(val: string, children: seq<Node>)
    | Name(val: string)
    | Number(n: int)
    | Leaf(query: Query)

  const METRIC_SET := map["+" := "sum()", "/" := "divide()"]
  const CONFIG_LIST := map["interval" := "${interval}"]

  const MARKER := ".es(q="

  function Fields(q: Query): string {
    q.metric + (", timefield=" + (q.timestamp + (", index=" + (q.index + (", metric=" + q.aggregation)))))
  }

  /** A fragment up to the arguments of its processing function. */
  function Stem(q: Query, processing: string): string {
    MARKER + (Fields(q) + (")." + (processing + "(")))
  }

  function QueryText(q: Query, processing: string): string {
    Stem(q, processing) + ")"
  }

  function DropLast(s: string): string {
    if s == "" then s else s[..|s| - 1]
  }

  /** Puts a value where the last character was, and closes again. */
  function WithArgument(output: string, value: string): string {
    DropLast(output) + value + ")"
  }

  function CompileNode(node: Node, processing: string, output: string): Result<string>
    decreases node, 0
  {
    match node
    case Operator(val, children) =>
      if val in METRIC_SET then
        var o :- Compile(children, processing, output);
        Ok("(" + o + ")." + METRIC_SET[val])
      else if val in CONFIG_LIST then Ok(WithArgument(output, CONFIG_LIST[val]))
      else Err(InternalError)
    case Name(val) =>
      if val in CONFIG_LIST && val !in METRIC_SET then Ok(WithArgument(output, CONFIG_LIST[val]))
      else Err(InternalError)
    case Number(n) => Ok(WithArgument(output, IntText(n)))
    case Leaf(query) =>
      if output == "" then Ok(QueryText(query, processing))
      else Ok("(" + output + "),(" + QueryText(query, processing) + ")")
  }

  function Compile(nodes: seq<Node>, processing: string, output: string): Result<string>
    decreases nodes, 1
  {
    if nodes == [] then Ok(output)
    else
      var o :- CompileNode(nodes[0], processing, output);
      Compile(nodes[1..], processing, o)
  }

  method Parse(nodes: seq<Node>, processing: string, output: string) returns (r: Result<string>)
    ensures r == Compile(nodes, processing, output)
    decreases nodes
  {
    var out := output;
    var i := 0;
    while i < |nodes|
      invariant 0 <= i <= |nodes|
      invariant Compile(nodes, processing, output) == Compile(nodes[i..], processing, out)
    {
      var node := nodes[i];
      assert nodes[i..][0] == node && nodes[i..][1..] == nodes[i + 1..];
      match node {
        case Operator(val, children) =>
          if val in METRIC_SET {
            var o :- Parse(children, processing, out);
            out := "(" + o + ")." + METRIC_SET[val];
          } else if val in CONFIG_LIST {
            out := WithArgument(out, CONFIG_LIST[val]);
          } else {
            return Err(InternalError);
          }
        case Name(val) =>
          if val in METRIC_SET {
            return Err(InternalError);
          } else if val in CONFIG_LIST {
            out := WithArgument(out, CONFIG_LIST[val]);
          } else {
            return Err(InternalError);
          }
        case Number(n) =>
          out := WithArgument(out, IntText(n));
        case Leaf(query) =>
          if out == "" {
            out := QueryText(query, processing);
          } else {
            out := "(" + out + "),(" + QueryText(query, processing) + ")";
          }
      }
      i := i + 1;
    }
    return Ok(out);
  }
}
