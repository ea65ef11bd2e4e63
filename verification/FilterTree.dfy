/** The condition trees that queries carry, and what they mean. */
module FilterTree {

  datatype Filter<+C> =
    | Compare(cond: C)
    | And(args: seq<Filter<C>>)
    | Or(args: seq<Filter<C>>)

  predicate Eval<C>(f: Filter<C>, holds: C -> bool) {
    match f
    case Compare(c) => holds(c)
    case And(args) => forall i :: 0 <= i < |args| ==> Eval(args[i], holds)
    case Or(args) => exists i :: 0 <= i < |args| && Eval(args[i], holds)
  }

  lemma {:induction false} EvalPair<C>(x: Filter<C>, y: Filter<C>, holds: C -> bool)
    ensures Eval(And([x, y]), holds) <==> Eval(x, holds) && Eval(y, holds)
    ensures Eval(Or([x, y]), holds) <==> Eval(x, holds) || Eval(y, holds)
  {
    var xs := [x, y];
    assert xs[0] == x && xs[1] == y;
    if Eval(And(xs), holds) {
      assert Eval(xs[0], holds) && Eval(xs[1], holds);
    }
    if Eval(x, holds) {
      assert Eval(xs[0], holds);
    }
    if Eval(y, holds) {
      assert Eval(xs[1], holds);
    }
  }

  /** Appending to a conjunction adds one condition. */
  lemma {:induction false} EvalSnoc<C>(xs: seq<Filter<C>>, y: Filter<C>, holds: C -> bool)
    ensures Eval(And(xs + [y]), holds) <==> Eval(And(xs), holds) && Eval(y, holds)
  {
    var ys := xs + [y];
    if Eval(And(ys), holds) {
      forall i | 0 <= i < |xs| ensures Eval(xs[i], holds) {
        assert ys[i] == xs[i];
      }
      assert ys[|xs|] == y;
    }
  }
}
