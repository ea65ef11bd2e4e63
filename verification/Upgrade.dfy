/** The configuration upgrade: merging a new version's defaults into the deployed configuration. */
module Upgrade {
  import opened Prelude

  datatype Setting = Text(text: string) | Number(n: int) | Flag(on: bool)

  type Conf = map<string, Setting>

  /** Empty texts, zero and false count as not given. */
  predicate Truthy(v: Setting)
    ensures !Truthy(v) <==> v in {Text(""), Number(0), Flag(false)}
  {
    match v
    case Text(s) => s != ""
    case Number(n) => n != 0
    case Flag(b) => b
  }

  predicate Given(c: Conf, k: string) {
    k in c && Truthy(c[k])
  }

  function Lookup(c: Conf, k: string): Option<Setting> {
    if k in c then Some(c[k]) else None
  }

  // ----- Names of previous defaults -----

  /** How much of a key its parent takes, with the last separator. */
  function ParentLength(key: string): (n: nat)
    ensures n <= |key| && '>' !in key[n..]
    ensures n > 0 ==> key[n - 1] == '>'
  {
    if key == "" then 0
    else if key[|key| - 1] == '>' then |key|
    else ParentLength(key[..|key| - 1])
  }

  function PreviousKey(key: string): string {
    key[..ParentLength(key)] + "pre_" + key[ParentLength(key)..]
  }

  lemma {:induction false} ParentLengthOf(parent: string, leaf: string)
    requires '>' !in leaf && (parent == "" || parent[|parent| - 1] == '>')
    ensures ParentLength(parent + leaf) == |parent|
    decreases |leaf|
  {
    if leaf == "" {
      assert parent + leaf == parent;
    } else {
      var n := |leaf| - 1;
      assert (parent + leaf)[..|parent + leaf| - 1] == parent + leaf[..n];
      assert leaf[n] in leaf && (parent + leaf)[|parent + leaf| - 1] == leaf[n];
      ParentLengthOf(parent, leaf[..n]);
    }
  }

  /** The previous default of a leaf stands beside it under a name of its own. */
  lemma {:induction false} PreviousKeyIs(parent: string, leaf: string)
    requires '>' !in leaf
    ensures PreviousKey(parent + ">" + leaf) == parent + ">pre_" + leaf
  {
    var above := parent + ">";
    ParentLengthOf(above, leaf);
    var key := above + leaf;
    assert key[..|above|] == above && key[|above|..] == leaf;
    assert above + "pre_" == parent + ">pre_";
  }

  lemma {:induction false} PreviousKeyOfRoot(leaf: string)
    requires '>' !in leaf
    ensures PreviousKey(leaf) == "pre_" + leaf
  {
    ParentLengthOf("", leaf);
    assert "" + leaf == leaf;
  }

  lemma {:induction false} PreviousKeyParts(key: string)
    ensures ParentLength(PreviousKey(key)) == ParentLength(key)
    ensures PreviousKey(key)[ParentLength(key) + 4..] == key[ParentLength(key)..]
    ensures PreviousKey(key)[..ParentLength(key)] == key[..ParentLength(key)]
  {
    var n := ParentLength(key);
    Regrouped(key[..n], "pre_", key[n..]);
    ParentLengthOf(key[..n], "pre_" + key[n..]);
  }

  /** No two keys share the slot of their previous default, and no key is its own. */
  lemma {:induction false} PreviousKeyInjective(a: string, b: string)
    ensures PreviousKey(a) == PreviousKey(b) ==> a == b
    ensures PreviousKey(a) != a
  {
    PreviousKeyParts(a);
    PreviousKeyParts(b);
    var m, n := ParentLength(a), ParentLength(b);
    assert a == a[..m] + a[m..] && b == b[..n] + b[n..];
    assert |PreviousKey(a)| == |a| + 4;
  }

  // ----- One merge -----

  /** The deployed value is the default that this version supersedes. */
  predicate Superseded(d: Conf, k: string, v: Setting) {
    Given(d, PreviousKey(k)) && d[PreviousKey(k)] == v
  }

  /** What a key holds after a merge: a missing or superseded value becomes the default, any other stays. */
  function MergedSetting(d: Conf, c: Conf, k: string): Option<Setting> {
    if !Given(d, k) then Lookup(c, k)
    else if !Given(c, k) || Superseded(d, k, c[k]) then Some(d[k])
    else Some(c[k])
  }

  function Merge(d: Conf, c: Conf): Conf {
    map k | k in c.Keys + d.Keys && MergedSetting(d, c, k).Some? :: MergedSetting(d, c, k).value
  }

  lemma {:induction false} MergeLookup(d: Conf, c: Conf, k: string)
    ensures Lookup(Merge(d, c), k) == MergedSetting(d, c, k)
  {
  }

  /** Merging the same defaults again changes nothing. */
  lemma {:induction false} MergeIdempotent(d: Conf, c: Conf)
    ensures Merge(d, Merge(d, c)) == Merge(d, c)
  {
  }

  /** A merge never removes a key, and it gives every default that is not empty a place. */
  lemma {:induction false} MergeKeepsKeys(d: Conf, c: Conf)
    ensures c.Keys <= Merge(d, c).Keys
    ensures forall k :: Given(d, k) ==> Given(Merge(d, c), k)
  {
  }

  /** Where there is a default, the key holds it after the merge exactly when nothing else was given or it is superseded. */
  lemma {:induction false} DefaultTakenIff(d: Conf, c: Conf, k: string)
    requires Given(d, k)
    ensures Lookup(Merge(d, c), k) == Lookup(d, k) <==>
            !Given(c, k) || c[k] == d[k] || (Given(d, PreviousKey(k)) && c[k] == d[PreviousKey(k)])
    ensures Lookup(Merge(d, c), k) != Lookup(d, k) ==> Lookup(Merge(d, c), k) == Lookup(c, k)
  {
    MergeLookup(d, c, k);
  }

  class ConfStore {
    var defaults: Conf
    var current: Conf

    constructor (defaults: Conf, current: Conf)
      ensures this.defaults == defaults && this.current == current
    {
      this.defaults, this.current := defaults, current;
    }

    /** Goes through the default keys in whatever order they are listed; the result is the merge. */
    method Update(keys: seq<string>)
      requires forall k :: k in keys <==> k in defaults
      modifies `current
      ensures current == Merge(defaults, old(current))
    {
      var n := 0;
      while n < |keys|
        invariant 0 <= n <= |keys|
        invariant forall k :: Lookup(current, k) ==
                              if k in keys[..n] then MergedSetting(defaults, old(current), k) else Lookup(old(current), k)
      {
        var key := keys[n];
        ghost var before := current;
        var value := defaults[key];
        if Truthy(value) {
          if key in current && Truthy(current[key]) {
            if value != current[key] {
              UpdateCurrentConfig(key);
            }
          } else {
            current := current[key := value];
          }
        }
        assert Lookup(current, key) == MergedSetting(defaults, before, key);
        assert forall k :: k in keys[..n + 1] <==> k in keys[..n] || k == key;
        n := n + 1;
      }
      assert keys[..n] == keys;
      forall k ensures Lookup(current, k) == Lookup(Merge(defaults, old(current)), k) {
        MergeLookup(defaults, old(current), k);
      }
      assert forall k :: k in current <==> Lookup(current, k).Some?;
      assert forall k :: k in Merge(defaults, old(current)) <==> Lookup(Merge(defaults, old(current)), k).Some?;
    }

    method UpdateCurrentConfig(key: string)
      requires key in defaults && key in current
      modifies `current
      ensures current == if Superseded(defaults, key, old(current)[key])
                         then old(current)[key := defaults[key]] else old(current)
    {
      var previousKey := PreviousKey(key);
      if previousKey in defaults && Truthy(defaults[previousKey]) {
        if defaults[previousKey] == current[key] {
          current := current[key := defaults[key]];
        }
      }
    }
  }

  // ----- Chains of upgrades -----

  /** The configuration c, deployed with version vs[0], after the upgrades to all versions that follow. */
  function Upgraded(c: Conf, vs: seq<Conf>): Conf
    requires vs != []
  {
    if |vs| == 1 then c else Merge(vs[|vs| - 1], Upgraded(c, vs[..|vs| - 1]))
  }

  /** Each version's previous default is the default of the version before it. */
  ghost predicate Linked(vs: seq<Conf>, k: string) {
    forall i, j :: 0 <= i < j < |vs| && j == i + 1 ==> Lookup(vs[j], PreviousKey(k)) == Lookup(vs[i], k)
  }

  predicate AllGiven(vs: seq<Conf>, k: string) {
    forall i :: 0 <= i < |vs| ==> Given(vs[i], k)
  }

  /** After every upgrade of the chain, the key holds the default of the version reached. */
  predicate Follows(c: Conf, vs: seq<Conf>, k: string)
    requires vs != []
  {
    Lookup(Upgraded(c, vs), k) == Lookup(vs[|vs| - 1], k) && (|vs| == 1 || Follows(c, vs[..|vs| - 1], k))
  }

  /** Along a linked chain, an untouched key follows the defaults exactly when none of them is empty. */
  lemma {:induction false} FollowsIff(c: Conf, vs: seq<Conf>, k: string)
    requires vs != [] && Lookup(c, k) == Lookup(vs[0], k) && Given(vs[0], k) && Linked(vs, k)
    ensures Follows(c, vs, k) <==> AllGiven(vs, k)
  {
    if |vs| > 1 {
      var n := |vs| - 1;
      FollowsIff(c, vs[..n], k);
      MergeLookup(vs[n], Upgraded(c, vs[..n]), k);
      assert Lookup(vs[n], PreviousKey(k)) == Lookup(vs[n - 1], k);
      assert forall i :: 0 <= i < n ==> vs[..n][i] == vs[i];
      assert AllGiven(vs, k) <==> AllGiven(vs[..n], k) && Given(vs[n], k);
    }
  }

  /** So with given defaults an untouched key ends at the newest one. */
  lemma {:induction false} UntouchedEndsNewest(c: Conf, vs: seq<Conf>, k: string)
    requires vs != [] && Lookup(c, k) == Lookup(vs[0], k) && Linked(vs, k) && AllGiven(vs, k)
    ensures Lookup(Upgraded(c, vs), k) == Lookup(vs[|vs| - 1], k)
  {
    FollowsIff(c, vs, k);
  }

  /** One upgrade leaves a given value alone. */
  predicate Leaves(d: Conf, k: string, v: Setting) {
    Given(d, k) && Superseded(d, k, v) ==> d[k] == v
  }

  lemma {:induction false} MergeLeavesIff(d: Conf, c: Conf, k: string, v: Setting)
    requires Lookup(c, k) == Some(v) && Truthy(v)
    ensures Lookup(Merge(d, c), k) == Some(v) <==> Leaves(d, k, v)
  {
  }

  /** The value of a key is the same after every upgrade of the chain. */
  predicate Survives(c: Conf, vs: seq<Conf>, k: string, v: Setting)
    requires vs != []
  {
    Lookup(Upgraded(c, vs), k) == Some(v) && (|vs| == 1 || Survives(c, vs[..|vs| - 1], k, v))
  }

  /** A given value survives every upgrade of a chain exactly when no version supersedes it by another. */
  lemma {:induction false} SurvivesIff(c: Conf, vs: seq<Conf>, k: string, v: Setting)
    requires vs != [] && Lookup(c, k) == Some(v) && Truthy(v)
    ensures Survives(c, vs, k, v) <==> (forall i :: 0 < i < |vs| ==> Leaves(vs[i], k, v))
  {
    if |vs| > 1 {
      var n := |vs| - 1;
      SurvivesIff(c, vs[..n], k, v);
      if Survives(c, vs[..n], k, v) {
        MergeLeavesIff(vs[n], Upgraded(c, vs[..n]), k, v);
        forall i | 0 < i < n ensures Leaves(vs[i], k, v) {
          assert vs[..n][i] == vs[i];
        }
      }
    }
  }

  /** So a custom value that equals no superseded default survives any number of upgrades. */
  lemma {:induction false} CustomValueSurvives(c: Conf, vs: seq<Conf>, k: string, v: Setting)
    requires vs != [] && Lookup(c, k) == Some(v) && Truthy(v) && Linked(vs, k)
    requires forall i :: 0 <= i < |vs| - 1 ==> Lookup(vs[i], k) != Some(v)
    ensures Survives(c, vs, k, v)
  {
    forall i | 0 < i < |vs| ensures Leaves(vs[i], k, v) {
      assert Lookup(vs[i], PreviousKey(k)) == Lookup(vs[i - 1], k);
    }
    SurvivesIff(c, vs, k, v);
  }

  /** A chain in which the key does not follow: an empty default strands it at the one before. */
  lemma {:induction false} EmptyDefaultStrands(d0: Conf, d1: Conf, d2: Conf, c: Conf, k: string)
    requires Given(d0, k) && Lookup(c, k) == Lookup(d0, k) && Linked([d0, d1, d2], k)
    requires !Given(d1, k)
    ensures Lookup(Upgraded(c, [d0, d1, d2]), k) == Lookup(d0, k) && !Follows(c, [d0, d1, d2], k)
  {
    var vs := [d0, d1, d2];
    assert vs[..2] == [d0, d1] && [d0, d1][..1] == [d0];
    assert Lookup(vs[2], PreviousKey(k)) == Lookup(vs[1], k);
    MergeLookup(d1, c, k);
    MergeLookup(d2, Merge(d1, c), k);
    assert Upgraded(c, [d0, d1]) == Merge(d1, c);
  }
}
