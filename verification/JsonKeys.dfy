/** Removal of a key from nested JSON. */
module JsonKeys {
  import opened Prelude

  datatype Json = Scalar(text: string) | List(elements: seq<Json>) | Object(members: map<string, Json>)

  function RemoveKey(j: Json, key: string): Json {
    match j
    case Scalar(_) => j
    case List(es) => List(seq(|es|, i requires 0 <= i < |es| => RemoveKey(es[i], key)))
    case Object(m) => Object(map k | k in m && k != key :: RemoveKey(m[k], key))
  }

  /** The key occurs in some object at some depth. */
  predicate Has(j: Json, key: string) {
    match j
    case Scalar(_) => false
    case List(es) => exists i :: 0 <= i < |es| && Has(es[i], key)
    case Object(m) => key in m || exists k :: k in m && Has(m[k], key)
  }

  lemma {:induction false} RemovedIsGone(j: Json, key: string)
    ensures !Has(RemoveKey(j, key), key)
  {
    match j
    case Scalar(_) =>
    case List(es) =>
      forall i | 0 <= i < |es| ensures !Has(RemoveKey(es[i], key), key) {
        RemovedIsGone(es[i], key);
      }
    case Object(m) =>
      forall k | k in m ensures !Has(RemoveKey(m[k], key), key) {
        RemovedIsGone(m[k], key);
      }
  }

  /** Removal changes a document exactly when the key occurs in it. */
  lemma {:induction false} UnchangedIff(j: Json, key: string)
    ensures RemoveKey(j, key) == j <==> !Has(j, key)
  {
    RemovedIsGone(j, key);
    match j
    case Scalar(_) =>
    case List(es) =>
      forall i | 0 <= i < |es| ensures RemoveKey(es[i], key) == es[i] <==> !Has(es[i], key) {
        UnchangedIff(es[i], key);
      }
      if !Has(j, key) {
        assert RemoveKey(j, key).elements == es;
      }
    case Object(m) =>
      forall k | k in m ensures RemoveKey(m[k], key) == m[k] <==> !Has(m[k], key) {
        UnchangedIff(m[k], key);
      }
      if !Has(j, key) {
        assert RemoveKey(j, key).members == m;
      }
  }

  /** In particular a second removal changes nothing. */
  lemma {:induction false} RemoveIdempotent(j: Json, key: string)
    ensures RemoveKey(RemoveKey(j, key), key) == RemoveKey(j, key)
  {
    RemovedIsGone(j, key);
    UnchangedIff(RemoveKey(j, key), key);
  }

  lemma {:induction false} RemoveCommutes(j: Json, a: string, b: string)
    ensures RemoveKey(RemoveKey(j, a), b) == RemoveKey(RemoveKey(j, b), a)
  {
    match j
    case Scalar(_) =>
    case List(es) =>
      forall i | 0 <= i < |es| ensures RemoveKey(RemoveKey(es[i], a), b) == RemoveKey(RemoveKey(es[i], b), a) {
        RemoveCommutes(es[i], a, b);
      }
    case Object(m) =>
      forall k | k in m ensures RemoveKey(RemoveKey(m[k], a), b) == RemoveKey(RemoveKey(m[k], b), a) {
        RemoveCommutes(m[k], a, b);
      }
  }

  // ----- Paths -----

  datatype Step = Member(key: string) | Element(index: nat)

  function At(j: Json, path: seq<Step>): Option<Json> {
    if path == [] then Some(j)
    else
      match (j, path[0])
      case (Object(m), Member(k)) => if k in m then At(m[k], path[1..]) else None
      case (List(es), Element(i)) => if i < |es| then At(es[i], path[1..]) else None
      case _ => None
  }

  /** Along a path that does not name the key one finds the removal of what was there before. */
  lemma {:induction false} RemoveAlongPath(j: Json, key: string, path: seq<Step>)
    requires Member(key) !in path
    ensures At(RemoveKey(j, key), path) ==
            match At(j, path) { case None => None case Some(v) => Some(RemoveKey(v, key)) }
    decreases |path|
  {
    if path != [] {
      assert path[0] in path;
      forall s | s in path[1..] ensures s in path {}
      match (j, path[0])
      case (Object(m), Member(k)) => if k in m { RemoveAlongPath(m[k], key, path[1..]); }
      case (List(es), Element(i)) => if i < |es| { RemoveAlongPath(es[i], key, path[1..]); }
      case _ =>
    }
  }

  /** Along a path that names the key one finds nothing. */
  lemma {:induction false} RemovedPathIsEmpty(j: Json, key: string, path: seq<Step>)
    requires Member(key) in path
    ensures At(RemoveKey(j, key), path) == None
    decreases |path|
  {
    if path[0] != Member(key) {
      assert Member(key) in path[1..];
      match (j, path[0])
      case (Object(m), Member(k)) => if k in m { RemovedPathIsEmpty(m[k], key, path[1..]); }
      case (List(es), Element(i)) => if i < |es| { RemovedPathIsEmpty(es[i], key, path[1..]); }
      case _ =>
    }
  }
}
