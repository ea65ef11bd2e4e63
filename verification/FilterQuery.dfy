/** The filter language of query parameters: parsing, printing, and the condition tree that is built. */
module FilterQuery {
  import opened Prelude
  import opened Text
  import opened FilterTree

  datatype Op = AND | OR
  datatype Field = Field(key: string, value: string)
  datatype Parsed = Parsed(fields: seq<Field>, ops: seq<Op>)

  function Word(op: Op): (r: string)
    ensures op.AND? ==> r == "AND"
    ensures op.OR? ==> r == "OR"
  {
    if op == AND then "AND" else "OR"
  }

  // ----- Parsing -----

  function Strip(s: string): string {
    if s == "" then s
    else if Blank(s[0]) then Strip(s[1..])
    else if Blank(s[|s| - 1]) then Strip(s[..|s| - 1])
    else s
  }

  lemma {:induction false} StripLeft(a: string, s: string)
    requires AllBlank(a)
    ensures Strip(a + s) == Strip(s)
  {
    if a == "" {
      assert a + s == s;
    } else {
      assert a[0] in a && (a + s)[0] == a[0] && (a + s)[1..] == a[1..] + s;
      StripLeft(a[1..], s);
    }
  }

  lemma {:induction false} StripRight(t: string, b: string)
    requires AllBlank(b) && t != "" && !Blank(t[0]) && !Blank(t[|t| - 1])
    ensures Strip(t + b) == t
    decreases |b|
  {
    if b == "" {
      assert t + b == t;
    } else {
      var n := |b| - 1;
      assert b[n] in b && (t + b)[..|t + b| - 1] == t + b[..n];
      StripRight(t, b[..n]);
    }
  }

  /** Stripping takes off the blanks at both ends and nothing else. */
  lemma {:induction false} StripPadded(a: string, t: string, b: string)
    requires AllBlank(a) && AllBlank(b) && (t == "" || (!Blank(t[0]) && !Blank(t[|t| - 1])))
    ensures Strip(a + t + b) == t
  {
    assert a + t + b == a + (t + b);
    StripLeft(a, t + b);
    if t == "" {
      StripLeft(b, "");
      assert t + b == b + "";
    } else {
      StripRight(t, b);
    }
  }

  function OnFirst(c: char, pieces: seq<string>): (r: seq<string>)
    requires |pieces| >= 1
    ensures |r| >= 1
  {
    [[c] + pieces[0]] + pieces[1..]
  }

  /** The pieces between the words with their blanks, found from the left without overlap. */
  function SplitFields(s: string): (r: seq<string>)
    ensures |r| >= 1
  {
    if s == "" then [""]
    else if " OR " <= s then [""] + SplitFields(s[4..])
    else if " AND " <= s then [""] + SplitFields(s[5..])
    else OnFirst(s[0], SplitFields(s[1..]))
  }

  /** The position of the first equals sign. */
  function IndexOfEquals(s: string): (i: nat)
    requires '=' in s
    ensures i < |s| && s[i] == '=' && '=' !in s[..i]
  {
    if s[0] == '=' then 0 else 1 + IndexOfEquals(s[1..])
  }

  function ParseField(s: string): Result<Field> {
    if '=' !in s then Err(Malformed)
    else Ok(Field(Strip(s[..IndexOfEquals(s)]), Strip(s[IndexOfEquals(s) + 1..])))
  }

  function ParseFields(pieces: seq<string>): Result<seq<Field>> {
    if pieces == [] then Ok([])
    else
      var f :- ParseField(pieces[0]);
      var rest :- ParseFields(pieces[1..]);
      Ok([f] + rest)
  }

  /** A dictionary keeps the place of a key's first value and the last value given. */
  function Insert(fields: seq<Field>, f: Field): seq<Field> {
    if fields == [] then [f]
    else if fields[0].key == f.key then [f] + fields[1..]
    else [fields[0]] + Insert(fields[1..], f)
  }

  function Dict(fields: seq<Field>): seq<Field> {
    if fields == [] then [] else Insert(Dict(fields[..|fields| - 1]), fields[|fields| - 1])
  }

  function WordOf(token: string): seq<Op> {
    if token == "AND" then [AND] else if token == "OR" then [OR] else []
  }

  /** The words among blank-separated tokens, in order. */
  function Words(tokens: seq<string>): seq<Op> {
    if tokens == [] then [] else WordOf(tokens[0]) + Words(tokens[1..])
  }

  function ParseQuery(query: string): Result<Parsed> {
    if query == "" then Ok(Parsed([], []))
    else
      var fields :- ParseFields(SplitFields(query));
      Ok(Parsed(Dict(fields), Words(Split(query, ' '))))
  }

  // ----- Printing -----

  function FieldText(f: Field): string {
    f.key + ['='] + f.value
  }

  function Print(fields: seq<Field>, ops: seq<Op>): string
    requires |fields| == |ops| + 1
  {
    if ops == [] then FieldText(fields[0])
    else FieldText(fields[0]) + [' '] + (Word(ops[0]) + [' '] + Print(fields[1..], ops[1..]))
  }

  /** Neither word stands in the text between blanks or at an end. */
  predicate WordFree(t: string) {
    !Contains(" " + t + " ", " AND ") && !Contains(" " + t + " ", " OR ")
  }

  predicate CleanField(f: Field) {
    '=' !in f.key && Strip(f.key) == f.key && Strip(f.value) == f.value && WordFree(FieldText(f))
  }

  predicate AllClean(fields: seq<Field>) {
    forall i :: 0 <= i < |fields| ==> CleanField(fields[i])
  }

  lemma {:induction false} CleanTail(fields: seq<Field>)
    requires fields != [] && AllClean(fields)
    ensures CleanField(fields[0]) && AllClean(fields[1..])
  {
  }

  predicate DistinctKeys(fields: seq<Field>) {
    forall i, j :: 0 <= i < j < |fields| ==> fields[i].key != fields[j].key
  }

  // ----- Fields come back -----

  /** Neither word ends at or before the end of u when a blank follows. */
  predicate NoWordIn(u: string) {
    !Contains(u + " ", " AND ") && !Contains(u + " ", " OR ")
  }

  lemma {:induction false} NoWordTail(u: string)
    requires u != "" && NoWordIn(u)
    ensures NoWordIn(u[1..])
  {
    assert (u + " ")[1..] == u[1..] + " ";
  }

  lemma {:induction false} WordFreeNoWord(t: string)
    requires WordFree(t)
    ensures NoWordIn(t)
  {
    assert (" " + t + " ")[1..] == t + " ";
  }

  /** A word that starts inside u would end inside u or at the blank after it. */
  lemma {:induction false} NoMatchAt(u: string, rest: string, word: string)
    requires u != "" && !(" " + word + " " <= u + " ") && ' ' !in word
    ensures !(" " + word + " " <= u + [' '] + rest)
  {
    var w := " " + word + " ";
    var whole := u + [' '] + rest;
    if |w| <= |u| + 1 {
      assert whole[..|w|] == (u + " ")[..|w|];
    } else {
      assert whole[|u|] == ' ';
      assert w[|u|] == word[|u| - 1] && word[|u| - 1] in word;
    }
  }

  lemma {:induction false} SplitFieldsAtWord(op: Op, rest: string)
    ensures SplitFields([' '] + (Word(op) + [' '] + rest)) == [""] + SplitFields(rest)
  {
    var whole := [' '] + (Word(op) + [' '] + rest);
    if op == OR {
      assert whole == " OR " + rest;
      assert whole[4..] == rest;
    } else {
      assert whole == " AND " + rest;
      assert whole[5..] == rest && whole[1] == 'A';
    }
  }

  lemma {:induction false} SplitFieldsHead(u: string, op: Op, rest: string)
    requires NoWordIn(u)
    ensures SplitFields(u + [' '] + (Word(op) + [' '] + rest)) == [u] + SplitFields(rest)
    decreases |u|
  {
    var tail := Word(op) + [' '] + rest;
    if u == "" {
      SplitFieldsAtWord(op, rest);
      assert u + [' '] + tail == [' '] + tail;
    } else {
      NoWordTail(u);
      SplitFieldsHead(u[1..], op, rest);
      SplitFieldsStep(u, tail);
      assert OnFirst(u[0], [u[1..]] + SplitFields(rest)) == [[u[0]] + u[1..]] + SplitFields(rest);
      assert [u[0]] + u[1..] == u;
    }
  }

  lemma {:induction false} SplitFieldsStep(u: string, tail: string)
    requires u != "" && NoWordIn(u)
    ensures SplitFields(u + [' '] + tail) == OnFirst(u[0], SplitFields(u[1..] + [' '] + tail))
  {
    assert " " + "OR" + " " == " OR " && " " + "AND" + " " == " AND ";
    NoMatchAt(u, tail, "OR");
    NoMatchAt(u, tail, "AND");
    var whole := u + [' '] + tail;
    assert whole[0] == u[0] && whole[1..] == u[1..] + [' '] + tail;
  }

  lemma {:induction false} SplitFieldsLast(u: string)
    requires NoWordIn(u)
    ensures SplitFields(u) == [u]
  {
    if u != "" {
      NoWordTail(u);
      SplitFieldsLast(u[1..]);
      assert u <= u + " ";
      assert [u[0]] + u[1..] == u;
    }
  }

  lemma {:induction false} EqualsInField(key: string, rest: string)
    requires '=' !in key
    ensures '=' in key + ['='] + rest && IndexOfEquals(key + ['='] + rest) == |key|
  {
    var whole := key + ['='] + rest;
    if key == "" {
      assert whole[0] == '=';
    } else {
      assert key[0] in key && whole[0] == key[0];
      forall x | x in key[1..] ensures x in key {}
      EqualsInField(key[1..], rest);
      assert whole[1..] == key[1..] + ['='] + rest;
    }
  }

  lemma {:induction false} ParseFieldText(f: Field)
    requires CleanField(f)
    ensures ParseField(FieldText(f)) == Ok(f)
  {
    EqualsInField(f.key, f.value);
    assert FieldText(f)[..|f.key|] == f.key && FieldText(f)[|f.key| + 1..] == f.value;
  }

  function Texts(fields: seq<Field>): seq<string> {
    if fields == [] then [] else [FieldText(fields[0])] + Texts(fields[1..])
  }

  lemma {:induction false} ParseFieldsCons(t: string, f: Field, pieces: seq<string>, fields: seq<Field>)
    requires ParseField(t) == Ok(f) && ParseFields(pieces) == Ok(fields)
    ensures ParseFields([t] + pieces) == Ok([f] + fields)
  {
  }

  lemma {:induction false} ParseTexts(fields: seq<Field>)
    requires AllClean(fields)
    ensures ParseFields(Texts(fields)) == Ok(fields)
  {
    if fields != [] {
      CleanTail(fields);
      ParseFieldText(fields[0]);
      ParseTexts(fields[1..]);
      ParseFieldsCons(FieldText(fields[0]), fields[0], Texts(fields[1..]), fields[1..]);
      assert fields == [fields[0]] + fields[1..];
    }
  }

  lemma {:induction false} SplitPrinted(fields: seq<Field>, ops: seq<Op>)
    requires |fields| == |ops| + 1 && AllClean(fields)
    ensures SplitFields(Print(fields, ops)) == Texts(fields)
    decreases |ops|
  {
    var t := FieldText(fields[0]);
    CleanTail(fields);
    WordFreeNoWord(t);
    if ops == [] {
      SplitFieldsLast(t);
      assert Texts(fields[1..]) == [];
    } else {
      SplitFieldsHead(t, ops[0], Print(fields[1..], ops[1..]));
      SplitPrinted(fields[1..], ops[1..]);
    }
  }

  lemma {:induction false} InsertNew(fields: seq<Field>, f: Field)
    requires forall i :: 0 <= i < |fields| ==> fields[i].key != f.key
    ensures Insert(fields, f) == fields + [f]
  {
    if fields != [] {
      InsertNew(fields[1..], f);
    }
  }

  lemma {:induction false} DictOfDistinct(fields: seq<Field>)
    requires DistinctKeys(fields)
    ensures Dict(fields) == fields
  {
    if fields != [] {
      var n := |fields| - 1;
      DictOfDistinct(fields[..n]);
      InsertNew(fields[..n], fields[n]);
    }
  }

  lemma {:induction false} InsertIs(fields: seq<Field>, f: Field)
    requires DistinctKeys(fields)
    ensures var r := Insert(fields, f);
            DistinctKeys(r) && (forall x :: x in r <==> x == f || (x in fields && x.key != f.key))
  {
    if fields != [] {
      assert forall i :: 1 <= i < |fields| ==> fields[i] == fields[1..][i - 1];
      InsertIs(fields[1..], f);
      var r := Insert(fields, f);
      assert forall x :: x in fields <==> x == fields[0] || x in fields[1..];
      if fields[0].key == f.key {
        assert r[1..] == fields[1..];
      } else {
        assert r[1..] == Insert(fields[1..], f);
      }
    }
  }

  /** The field is the last one of its key. */
  predicate IsLast(fields: seq<Field>, f: Field) {
    exists i :: 0 <= i < |fields| && fields[i] == f && forall j :: i < j < |fields| ==> fields[j].key != f.key
  }

  function KeysOf(fields: seq<Field>): (r: seq<string>)
    ensures |r| == |fields| && forall i :: 0 <= i < |fields| ==> r[i] == fields[i].key
  {
    seq(|fields|, i requires 0 <= i < |fields| => fields[i].key)
  }

  /** The keys in the order in which they first come. */
  function FirstKeys(fields: seq<Field>): seq<string> {
    if fields == [] then []
    else
      var n := |fields| - 1;
      var before := FirstKeys(fields[..n]);
      if fields[n].key in before then before else before + [fields[n].key]
  }

  lemma {:induction false} IsLastNext(fields: seq<Field>, f: Field)
    requires fields != []
    ensures var n := |fields| - 1;
            IsLast(fields, f) <==> f == fields[n] || (IsLast(fields[..n], f) && f.key != fields[n].key)
  {
    var n := |fields| - 1;
    assert forall i :: 0 <= i < n ==> fields[..n][i] == fields[i];
    if IsLast(fields[..n], f) && f.key != fields[n].key {
      var i :| 0 <= i < n && fields[..n][i] == f && forall j :: i < j < n ==> fields[..n][j].key != f.key;
      assert fields[i] == f;
    }
  }

  /** Of fields with equal keys the dictionary holds the last one, at the place of the first. */
  lemma {:induction false} DictIs(fields: seq<Field>)
    ensures DistinctKeys(Dict(fields)) && KeysOf(Dict(fields)) == FirstKeys(fields)
    ensures forall f :: f in Dict(fields) <==> IsLast(fields, f)
  {
    if fields != [] {
      var n := |fields| - 1;
      var before := Dict(fields[..n]);
      DictIs(fields[..n]);
      InsertIs(before, fields[n]);
      forall f ensures f in Dict(fields) <==> IsLast(fields, f) {
        IsLastNext(fields, f);
      }
      InsertKeys(before, fields[n]);
    }
  }

  lemma {:induction false} InsertKeys(fields: seq<Field>, f: Field)
    ensures KeysOf(Insert(fields, f)) == if f.key in KeysOf(fields) then KeysOf(fields) else KeysOf(fields) + [f.key]
  {
    if fields != [] {
      InsertKeys(fields[1..], f);
      assert KeysOf(fields) == [fields[0].key] + KeysOf(fields[1..]);
      var r := Insert(fields, f);
      assert KeysOf(r) == [r[0].key] + KeysOf(r[1..]);
    }
  }

  // ----- Operators come back -----

  lemma {:induction false} WordsConcat(a: seq<string>, b: seq<string>)
    ensures Words(a + b) == Words(a) + Words(b)
  {
    if a == [] {
      assert a + b == b;
    } else {
      WordsConcat(a[1..], b);
      assert (a + b)[0] == a[0] && (a + b)[1..] == a[1..] + b;
      Regrouped(WordOf(a[0]), Words(a[1..]), Words(b));
    }
  }

  /** Every token but the first stands between blanks; the first is followed by one. */
  lemma {:induction false} TokensAreBounded(s: string, i: nat)
    requires i < |Split(s, ' ')|
    ensures i == 0 ==> Split(s, ' ')[0] + " " <= s + " "
    ensures i > 0 ==> Contains(s + " ", " " + Split(s, ' ')[i] + " ")
    decreases |s|
  {
    if s != "" {
      var pieces := Split(s[1..], ' ');
      assert s + " " == [s[0]] + (s[1..] + " ") && (s + " ")[1..] == s[1..] + " ";
      if s[0] == ' ' {
        if i > 0 {
          TokensAreBounded(s[1..], i - 1);
          if i == 1 {
            assert " " + pieces[0] + " " == " " + (pieces[0] + " ");
            assert " " + pieces[0] + " " <= s + " ";
          }
        }
      } else {
        TokensAreBounded(s[1..], i);
        if i == 0 {
          assert [s[0]] + pieces[0] + " " == [s[0]] + (pieces[0] + " ");
        }
      }
    }
  }

  lemma {:induction false} NoWords(tokens: seq<string>)
    requires forall i :: 0 <= i < |tokens| ==> tokens[i] != "AND" && tokens[i] != "OR"
    ensures Words(tokens) == []
  {
    if tokens != [] {
      NoWords(tokens[1..]);
    }
  }

  lemma {:induction false} WordFreeTokens(t: string)
    requires WordFree(t)
    ensures Words(Split(t, ' ')) == []
  {
    var tokens := Split(t, ' ');
    var padded := " " + t + " ";
    assert padded[1..] == t + " " && padded == " " + (t + " ");
    forall i | 0 <= i < |tokens| ensures tokens[i] != "AND" && tokens[i] != "OR" {
      TokensAreBounded(t, i);
      assert " " + tokens[i] + " " == " " + (tokens[i] + " ");
      assert Contains(padded, " " + tokens[i] + " ");
      assert " " + "AND" + " " == " AND " && " " + "OR" + " " == " OR ";
    }
    NoWords(tokens);
  }

  lemma {:induction false} OperatorsComeBack(fields: seq<Field>, ops: seq<Op>)
    requires |fields| == |ops| + 1 && AllClean(fields)
    ensures Words(Split(Print(fields, ops), ' ')) == ops
    decreases |ops|
  {
    var t := FieldText(fields[0]);
    CleanTail(fields);
    WordFreeTokens(t);
    if ops != [] {
      var word := Word(ops[0]);
      var rest := Print(fields[1..], ops[1..]);
      OperatorsComeBack(fields[1..], ops[1..]);
      SplitAtSeparator(t, ' ', word + [' '] + rest);
      SplitAtSeparator(word, ' ', rest);
      SplitSinglePiece(word, ' ');
      WordsConcat(Split(t, ' '), [word] + Split(rest, ' '));
      WordsConcat([word], Split(rest, ' '));
      assert [word][1..] == [];
      assert Words([word]) == [ops[0]];
      assert ops == [ops[0]] + ops[1..];
    }
  }

  /** Parsing a printed query gives back its fields and its operators. */
  lemma {:induction false} RoundTrip(fields: seq<Field>, ops: seq<Op>)
    requires |fields| == |ops| + 1 && DistinctKeys(fields)
    requires AllClean(fields)
    ensures ParseQuery(Print(fields, ops)) == Ok(Parsed(fields, ops))
  {
    SplitPrinted(fields, ops);
    ParseTexts(fields);
    OperatorsComeBack(fields, ops);
    DictOfDistinct(fields);
    assert FieldText(fields[0]) != "" by { assert FieldText(fields[0])[|fields[0].key|] == '='; }
  }

  // ----- The tree -----

  /** Strictly left to right: the first n comparisons, each combined with all before it. */
  predicate LeftFold(fields: seq<Field>, ops: seq<Op>, holds: Field -> bool, n: nat)
    requires 1 <= n <= |fields| && n <= |ops| + 1
  {
    if n == 1 then holds(fields[0])
    else if ops[n - 2] == AND then LeftFold(fields, ops, holds, n - 1) && holds(fields[n - 1])
    else LeftFold(fields, ops, holds, n - 1) || holds(fields[n - 1])
  }

  /** A comparison that holds by itself: it is the first one or alone enough, and all joined to it by AND hold. */
  predicate Carries(fields: seq<Field>, ops: seq<Op>, holds: Field -> bool, n: nat, j: nat)
    requires j < n <= |fields| && n <= |ops| + 1
  {
    (j == 0 || ops[j - 1] == OR) && holds(fields[j]) &&
    forall i :: j < i < n && ops[i - 1] == AND ==> holds(fields[i])
  }

  /** The fold in other words: some comparison carries it past every AND that comes later. */
  lemma {:induction false} FoldMeans(fields: seq<Field>, ops: seq<Op>, holds: Field -> bool, n: nat)
    requires 1 <= n <= |fields| && n <= |ops| + 1
    ensures LeftFold(fields, ops, holds, n) <==> exists j :: 0 <= j < n && Carries(fields, ops, holds, n, j)
  {
    if n == 1 {
      assert Carries(fields, ops, holds, n, 0) <==> holds(fields[0]);
    } else {
      FoldMeans(fields, ops, holds, n - 1);
      assert Carries(fields, ops, holds, n, n - 1) <==> ops[n - 2] == OR && holds(fields[n - 1]);
      if LeftFold(fields, ops, holds, n - 1) {
        var j :| 0 <= j < n - 1 && Carries(fields, ops, holds, n - 1, j);
        assert Carries(fields, ops, holds, n, j) <==> ops[n - 2] == OR || holds(fields[n - 1]);
      }
      if exists j :: 0 <= j < n - 1 && Carries(fields, ops, holds, n, j) {
        var j :| 0 <= j < n - 1 && Carries(fields, ops, holds, n, j);
        assert Carries(fields, ops, holds, n - 1, j);
      }
    }
  }

  method BuildTree(fields: seq<Field>, ops: seq<Op>) returns (r: Result<Filter<Field>>)
    ensures r.Ok? <==> 1 <= |fields| <= |ops| + 1
    ensures r.Ok? ==> forall holds :: Eval(r.value, holds) <==> LeftFold(fields, ops, holds, |fields|)
  {
    var conditions: seq<Filter<Field>> := [];
    var nested := 0;
    var n := 0;
    while n < |fields|
      invariant 0 <= n <= |fields| && |conditions| == (if n == 0 then 0 else 1)
      invariant nested == (if n == 0 then 0 else n - 1) && n <= |ops| + 1
      invariant n > 0 ==> forall holds :: Eval(conditions[0], holds) <==> LeftFold(fields, ops, holds, n)
    {
      conditions := conditions + [Compare(fields[n])];
      if |conditions| > 1 {
        if nested >= |ops| {
          return Err(Malformed);
        }
        ghost var before := conditions;
        if ops[nested] == AND {
          conditions := [And(conditions)];
        } else {
          conditions := [Or(conditions)];
        }
        forall holds ensures Eval(conditions[0], holds) <==> LeftFold(fields, ops, holds, n + 1) {
          assert before == [before[0], Compare(fields[n])];
          EvalPair(before[0], Compare(fields[n]), holds);
        }
        nested := nested + 1;
      }
      n := n + 1;
    }
    if conditions == [] {
      return Err(InvalidRequest);
    }
    return Ok(conditions[0]);
  }

  /** What is known of the record type: its fields, the values that convert, and the defaults. */
  datatype Schema = Schema(known: string -> bool, converts: Field -> bool, default_: string -> string)

  function Defaulted(schema: Schema, f: Field): Field {
    if schema.converts(f) then f else f.(value := schema.default_(f.key))
  }

  function AllDefaulted(schema: Schema, fields: seq<Field>): (r: seq<Field>)
    ensures |r| == |fields|
  {
    seq(|fields|, i requires 0 <= i < |fields| => Defaulted(schema, fields[i]))
  }

  /** Rejects unknown keys and puts defaults where values do not convert. */
  method ValidateQueryFields(fields: seq<Field>, schema: Schema) returns (r: Result<seq<Field>>)
    ensures r.Ok? <==> forall i :: 0 <= i < |fields| ==> schema.known(fields[i].key)
    ensures r.Ok? ==> |r.value| == |fields| && forall i :: 0 <= i < |fields| ==>
                        r.value[i].key == fields[i].key &&
                        r.value[i].value == if schema.converts(fields[i]) then fields[i].value
                                            else schema.default_(fields[i].key)
    ensures r.Ok? ==> r.value == AllDefaulted(schema, fields)
  {
    var updated: seq<Field> := [];
    var n := 0;
    while n < |fields|
      invariant 0 <= n <= |fields|
      invariant forall i :: 0 <= i < n ==> schema.known(fields[i].key)
      invariant updated == AllDefaulted(schema, fields)[..n]
    {
      if !schema.known(fields[n].key) {
        return Err(InvalidRequest);
      }
      updated := updated + [Defaulted(schema, fields[n])];
      n := n + 1;
    }
    return Ok(updated);
  }

  function Inner(query: string): string {
    if |query| < 2 then "" else query[1..|query| - 1]
  }

  /** The whole way from the text in braces to a tree. */
  method PrepareFilters(query: string, schema: Schema) returns (r: Result<Filter<Field>>)
    ensures r.Ok? <==>
            var p := ParseQuery(Inner(query));
            p.Ok? && 1 <= |p.value.fields| <= |p.value.ops| + 1 &&
            forall i :: 0 <= i < |p.value.fields| ==> schema.known(p.value.fields[i].key)
    ensures r.Ok? ==>
              var p := ParseQuery(Inner(query)).value;
              forall holds :: Eval(r.value, holds) <==>
                              LeftFold(AllDefaulted(schema, p.fields), p.ops, holds, |p.fields|)
  {
    var parsed :- ParseQuery(Inner(query));
    var fields :- ValidateQueryFields(parsed.fields, schema);
    r := BuildTree(fields, parsed.ops);
  }

  /** A printed query in braces means the fold of its own comparisons. */
  method PreparePrinted(fields: seq<Field>, ops: seq<Op>, schema: Schema) returns (r: Result<Filter<Field>>)
    requires |fields| == |ops| + 1 && DistinctKeys(fields)
    requires AllClean(fields)
    requires forall i :: 0 <= i < |fields| ==> schema.known(fields[i].key) && schema.converts(fields[i])
    ensures r.Ok? && forall holds :: Eval(r.value, holds) <==> LeftFold(fields, ops, holds, |fields|)
  {
    var query := "{" + Print(fields, ops) + "}";
    assert Inner(query) == Print(fields, ops);
    RoundTrip(fields, ops);
    assert AllDefaulted(schema, fields) == fields;
    r := PrepareFilters(query, schema);
  }
}
