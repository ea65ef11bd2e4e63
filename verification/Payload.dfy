/** Configuration payloads: nested dictionaries read and written by dotted keys. */
module Payloads {
  import opened Prelude
  import opened Text

  datatype Value = Null | Scalar(text: string) | Dict(items: map<string, Value>)

  type Path = seq<string>

  // ----- Paths -----

  /** Reading a missing key gives Null; reading through something that is no dictionary fails. */
  function Get(v: Value, p: Path): Result<Value> {
    if p == [] then Ok(v)
    else if !v.Dict? then Err(TypeMismatch)
    else if p[0] !in v.items then Ok(Null)
    else Get(v.items[p[0]], p[1..])
  }

  /** Writing makes dictionaries on the way where there are none. */
  function Set(v: Value, p: Path, x: Value): (r: Value)
    requires p != [] && v.Dict?
    ensures r.Dict?
    decreases |p|
  {
    if |p| == 1 then Dict(v.items[p[0] := x])
    else Dict(v.items[p[0] := Set(Entered(v, p[0]), p[1..], x)])
  }

  /** The dictionary below a key, or a new one in place of anything else. */
  function Entered(v: Value, key: string): (r: Value)
    requires v.Dict?
    ensures r.Dict?
  {
    if key in v.items && v.items[key].Dict? then v.items[key] else Dict(map[])
  }

  predicate Comparable(p: Path, q: Path) {
    p <= q || q <= p
  }

  /** At and below the path that was written, one reads what was written. */
  lemma {:induction false} GetAfterSet(v: Value, p: Path, x: Value, below: Path)
    requires p != [] && v.Dict?
    ensures Get(Set(v, p, x), p + below) == Get(x, below)
    decreases |p|
  {
    assert (p + below)[0] == p[0] && (p + below)[1..] == p[1..] + below;
    if |p| == 1 {
      assert p[1..] + below == below;
    } else {
      GetAfterSet(Entered(v, p[0]), p[1..], x, below);
    }
  }

  lemma {:induction false} IncomparableTails(p: Path, q: Path)
    requires !Comparable(p, q) && p[0] == q[0]
    ensures !Comparable(p[1..], q[1..])
  {
  }

  /** A value that is no dictionary lies on the way of both paths, so that writing the one replaces it. */
  predicate Blocked(v: Value, p: Path, q: Path)
    requires v.Dict?
    decreases |p|
  {
    |p| > 1 && |q| > 1 && p[0] == q[0] && p[0] in v.items &&
    (!v.items[p[0]].Dict? || Blocked(v.items[p[0]], p[1..], q[1..]))
  }

  /**
   * Writing one path changes what is read at another that is not prefix-related to it
   * exactly when it replaces a value on their common way; and then the other could not be read.
   */
  lemma {:induction false} SetLeavesOthersIff(v: Value, p: Path, x: Value, q: Path)
    requires p != [] && v.Dict? && !Comparable(p, q)
    ensures Get(Set(v, p, x), q) == Get(v, q) <==> !Blocked(v, p, q)
    ensures Blocked(v, p, q) ==> Get(v, q).Err? && Get(Set(v, p, x), q) == Ok(Null)
    decreases |p|
  {
    if p[0] == q[0] {
      IncomparableTails(p, q);
      SetLeavesOthersIff(Entered(v, p[0]), p[1..], x, q[1..]);
      if !(p[0] in v.items && v.items[p[0]].Dict?) {
        assert !Blocked(Dict(map[]), p[1..], q[1..]);
      }
    }
  }

  /** Writing leaves every readable path alone that is not prefix-related to the written one. */
  lemma {:induction false} SetLeavesReadable(v: Value, p: Path, x: Value, q: Path)
    requires p != [] && v.Dict? && !Comparable(p, q) && Get(v, q).Ok?
    ensures Get(Set(v, p, x), q) == Get(v, q)
  {
    SetLeavesOthersIff(v, p, x, q);
  }

  // ----- Dotted keys -----

  function PathOf(key: string): (p: Path)
    ensures p != []
  {
    Split(key, '.')
  }

  /** The position of the first dot. */
  function FirstDot(key: string): (i: nat)
    requires '.' in key
    ensures i < |key| && key[i] == '.' && '.' !in key[..i]
  {
    if key[0] == '.' then 0 else 1 + FirstDot(key[1..])
  }

  lemma {:induction false} PathAtDot(key: string)
    ensures '.' !in key ==> PathOf(key) == [key]
    ensures '.' in key ==> PathOf(key) == [key[..FirstDot(key)]] + PathOf(key[FirstDot(key) + 1..])
  {
    if '.' !in key {
      SplitSinglePiece(key, '.');
    } else {
      var i := FirstDot(key);
      assert key == key[..i] + ['.'] + key[i + 1..];
      SplitAtSeparator(key[..i], '.', key[i + 1..]);
      SplitSinglePiece(key[..i], '.');
    }
  }

  /** Reading by a key, one component at a time. */
  function GetKey(v: Value, key: string): (r: Result<Value>)
    ensures r == Get(v, PathOf(key))
    decreases |key|
  {
    PathAtDot(key);
    if !v.Dict? then Err(TypeMismatch)
    else if '.' !in key then
      if key !in v.items then Ok(Null) else Ok(v.items[key])
    else
      var head, tail := key[..FirstDot(key)], key[FirstDot(key) + 1..];
      if head !in v.items then Ok(Null) else GetKey(v.items[head], tail)
  }

  /** Writing by a key, one component at a time. */
  function SetKey(v: Value, key: string, x: Value): (r: Value)
    requires v.Dict?
    ensures r == Set(v, PathOf(key), x)
    decreases |key|
  {
    PathAtDot(key);
    if '.' !in key then Dict(v.items[key := x])
    else
      var head, tail := key[..FirstDot(key)], key[FirstDot(key) + 1..];
      Dict(v.items[head := SetKey(Entered(v, head), tail, x)])
  }

  // ----- Conversion -----

  /** One entry of a mapping: the key to read in the source and the key to write in the target. */
  datatype Entry = Entry(source: string, target: string)

  predicate Readable(src: Value, es: seq<Entry>) {
    forall i :: 0 <= i < |es| ==> Get(src, PathOf(es[i].source)).Ok?
  }

  predicate IncomparableTargets(es: seq<Entry>) {
    forall i, j :: 0 <= i < j < |es| ==> !Comparable(PathOf(es[j].target), PathOf(es[i].target))
  }

  function Converted(src: Value, dst: Value, es: seq<Entry>): (r: Value)
    requires dst.Dict? && Readable(src, es)
    ensures r.Dict?
  {
    if es == [] then dst
    else
      var e := es[|es| - 1];
      Set(Converted(src, dst, es[..|es| - 1]), PathOf(e.target), Get(src, PathOf(e.source)).value)
  }

  /** Entry n is the first whose source cannot be read. */
  predicate StopsAt(src: Value, es: seq<Entry>, n: nat)
    requires n < |es|
  {
    Readable(src, es[..n]) && Get(src, PathOf(es[n].source)).Err?
  }

  /** The entries before entry n are converted, and no more. */
  predicate Stopped(src: Value, es: seq<Entry>, n: nat, before: Value, after: Value)
    requires n < |es| && StopsAt(src, es, n) && before.Dict?
  {
    after == Converted(src, before, es[..n])
  }

  lemma {:induction false} PrefixConverts(src: Value, es: seq<Entry>, n: nat)
    requires Readable(src, es) && n <= |es|
    ensures Readable(src, es[..n])
    ensures IncomparableTargets(es) ==> IncomparableTargets(es[..n])
  {
  }

  /** Every target ends up with its source's value. */
  lemma {:induction false} ConvertReaches(src: Value, dst: Value, es: seq<Entry>, i: nat)
    requires dst.Dict? && Readable(src, es) && IncomparableTargets(es) && i < |es|
    ensures Get(Converted(src, dst, es), PathOf(es[i].target)) == Get(src, PathOf(es[i].source))
  {
    var n := |es| - 1;
    PrefixConverts(src, es, n);
    var before := Converted(src, dst, es[..n]);
    var target, value := PathOf(es[n].target), Get(src, PathOf(es[n].source)).value;
    assert Converted(src, dst, es) == Set(before, target, value);
    if i == n {
      GetAfterSet(before, target, value, []);
      assert target + [] == target;
    } else {
      ConvertReaches(src, dst, es[..n], i);
      assert es[..n][i] == es[i];
      SetLeavesReadable(before, target, value, PathOf(es[i].target));
    }
  }

  /** What is incomparable to all targets and could be read is as before. */
  lemma {:induction false} ConvertLeavesOthers(src: Value, dst: Value, es: seq<Entry>, q: Path)
    requires dst.Dict? && Readable(src, es) && Get(dst, q).Ok?
    requires forall i :: 0 <= i < |es| ==> !Comparable(PathOf(es[i].target), q)
    ensures Get(Converted(src, dst, es), q) == Get(dst, q)
  {
    if es != [] {
      var n := |es| - 1;
      ConvertLeavesOthers(src, dst, es[..n], q);
      var before := Converted(src, dst, es[..n]);
      SetLeavesReadable(before, PathOf(es[n].target), Get(src, PathOf(es[n].source)).value, q);
    }
  }

  // ----- The payload object -----

  class Payload {
    /** The document that the payload was loaded from. */
    var doc: Value
    var data: Value
    var dirty: bool

    constructor (doc: Value)
      ensures this.doc == doc && data == doc && !dirty
    {
      this.doc, data, dirty := doc, doc, false;
    }

    /** Unsaved changes are never thrown away. */
    method Load() returns (r: Result<Value>)
      modifies `data
      ensures if dirty then r.Err? && data == old(data) else r == Ok(doc) && data == doc
    {
      if dirty {
        return Err(InternalError);
      }
      data := doc;
      return Ok(data);
    }

    method Dump()
      modifies `doc, `dirty
      ensures doc == data && !dirty
    {
      doc := data;
      dirty := false;
    }

    method Put(key: string, x: Value) returns (r: Result<()>)
      modifies `data, `dirty
      ensures r.Ok? <==> old(data).Dict?
      ensures r.Ok? ==> data == Set(old(data), PathOf(key), x) && dirty
      ensures r.Err? ==> data == old(data) && dirty == old(dirty)
    {
      if !data.Dict? {
        return Err(TypeMismatch);
      }
      data := SetKey(data, key, x);
      dirty := true;
      return Ok(());
    }

    /** Converts into another payload; an unreadable source stops it after the entries before. */
    method Convert(schema: seq<Entry>, payload: Payload) returns (r: Result<()>)
      requires payload != this && payload.data.Dict?
      modifies payload`data, payload`dirty
      ensures r.Ok? <==> Readable(data, schema)
      ensures r.Ok? ==> payload.data == Converted(data, old(payload.data), schema)
      ensures r.Ok? ==> payload.dirty == (old(payload.dirty) || schema != [])
      ensures r.Err? ==> exists n :: 0 <= n < |schema| && StopsAt(data, schema, n) &&
                                     Stopped(data, schema, n, old(payload.data), payload.data) &&
                                     payload.dirty == (old(payload.dirty) || n > 0)
    {
      var n := 0;
      while n < |schema|
        invariant 0 <= n <= |schema| && Readable(data, schema[..n])
        invariant payload.data == Converted(data, old(payload.data), schema[..n])
        invariant payload.dirty == (old(payload.dirty) || n > 0)
      {
        var val := GetKey(data, schema[n].source);
        assert schema[..n + 1][..n] == schema[..n];
        if val.Err? {
          assert StopsAt(data, schema, n) && Stopped(data, schema, n, old(payload.data), payload.data);
          return Err(val.error);
        }
        var _ := payload.Put(schema[n].target, val.value);
        n := n + 1;
      }
      assert schema[..n] == schema;
      return Ok(());
    }
  }
}
