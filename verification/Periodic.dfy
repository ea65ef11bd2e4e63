/** The periodic scheduler. Times are counted in microseconds. */
module Periodic {
  import opened Prelude

  /** How a turn ends; a cancellation may arrive in the sleep before the run or in the run. */
  datatype Outcome = Completed | Failed | Cancelled | CancelledAsleep

  /**
   * One turn of the handler as the environment decides it: how much later than asked a
   * sleep ends, how long the run takes, and how the turn ends. A clock that never goes back and
   * sleeps that never end early are what makes both numbers non-negative.
   */
  datatype Turn = Turn(late: nat, duration: nat, outcome: Outcome)
  {
    predicate Stops() {
      outcome == Cancelled || outcome == CancelledAsleep
    }
  }

  /** When a run begins that is due at a slot and whose turn starts at a given time. */
  function Begin(at: int, clock: int, t: Turn): (b: int)
    ensures b >= at && b >= clock + t.late
  {
    (if at > clock then at else clock) + t.late
  }

  /** How many runs end without being cancelled. */
  function Ended(turns: seq<Turn>): nat {
    if turns == [] || turns[0].Stops() then 0 else 1 + Ended(turns[1..])
  }

  /** The times at which runs begin; a cancellation reaches a turn that does not sleep in its run. */
  function Starts(at: int, period: int, clock: int, turns: seq<Turn>): seq<int>
    decreases |turns|
  {
    if turns == [] then []
    else
      var b := Begin(at, clock, turns[0]);
      if turns[0].outcome == CancelledAsleep && at > clock then []
      else if turns[0].Stops() then [b]
      else [b] + Starts(at + period, period, b + turns[0].duration, turns[1..])
  }

  /** The slot after k advances. */
  function Slot(at: int, period: int, k: nat): int {
    if k == 0 then at else Slot(at, period, k - 1) + period
  }

  lemma {:induction false} SlotIs(at: int, period: int, k: nat)
    ensures Slot(at, period, k) == at + k * period
  {
    if k > 0 {
      SlotIs(at, period, k - 1);
      assert (k - 1) * period + period == k * period;
    }
  }

  /** What the turn of one index adds to the runs that began before it. */
  lemma {:induction false} TurnStarts(starts: seq<int>, at: int, period: int, clock: int, turns: seq<Turn>, n: nat)
    requires n < |turns|
    ensures Ended(turns[n..]) == if turns[n].Stops() then 0 else 1 + Ended(turns[n + 1..])
    ensures var b := Begin(at, clock, turns[n]);
            starts + Starts(at, period, clock, turns[n..]) ==
            if turns[n].outcome == CancelledAsleep && at > clock then starts
            else if turns[n].Stops() then starts + [b]
            else starts + [b] + Starts(at + period, period, b + turns[n].duration, turns[n + 1..])
  {
    assert turns[n..][0] == turns[n] && turns[n..][1..] == turns[n + 1..];
  }

  class Scheduler {
    const period: int
    var at: Option<int>
    var running: bool

    constructor (period: int)
      ensures this.period == period && Idle()
    {
      this.period := period;
      at, running := None, false;
    }

    predicate Idle()
      reads this
    {
      !running && at == None
    }

    /** Starting a scheduler that runs already changes nothing. */
    method StartExact(first: int)
      modifies this
      ensures running
      ensures if old(running) then at == old(at) else at == Some(first)
    {
      if running {
        return;
      }
      at := Some(first);
      running := true;
    }

    method Start(clock: int, now: bool)
      modifies this
      ensures running
      ensures if old(running) then at == old(at) else at == Some(if now then clock else clock + period)
    {
      var first := clock;
      if !now {
        first := first + period;
      }
      StartExact(first);
    }

    method Stop()
      modifies this
      ensures if old(running) then Idle() else at == old(at) && !running
    {
      if !running {
        return;
      }
      running := false;
      at := None;
    }

    /** The handler; failed runs are scheduled on like completed ones, and a cancellation ends it. */
    method Handle(clock: int, turns: seq<Turn>) returns (starts: seq<int>)
      requires running && at.Some?
      modifies `at
      ensures starts == Starts(old(at).value, period, clock, turns)
      ensures at == Some(old(at).value + Ended(turns) * period)
    {
      SlotIs(at.value, period, Ended(turns));
      starts := [];
      var current := clock;
      var n := 0;
      while n < |turns|
        invariant 0 <= n <= |turns| && at.Some?
        invariant at.value == Slot(old(at).value, period, n)
        invariant Ended(turns) == n + Ended(turns[n..])
        invariant Starts(old(at).value, period, clock, turns) ==
                  starts + Starts(at.value, period, current, turns[n..])
      {
        var t := turns[n];
        TurnStarts(starts, at.value, period, current, turns, n);
        var delta := at.value - current;
        if delta > 0 {
          if t.outcome == CancelledAsleep {
            return;
          }
          current := current + delta;
        }
        current := current + t.late;
        starts := starts + [current];
        if t.outcome == Cancelled || t.outcome == CancelledAsleep {
          return;
        }
        current := current + t.duration;
        at := Some(at.value + period);
        n := n + 1;
      }
    }
  }

  // ----- No drift -----

  /** A turn after which the handler goes on: its run completed or failed. */
  predicate Continues(t: Turn) {
    t.outcome == Completed || t.outcome == Failed
  }

  /**
   * As long as no turn is cancelled every turn begins a run, at its slot or, when the run before
   * takes longer, at that run's end, and later than that only by what its own turn is late.
   */
  lemma {:induction false} StartsExactly(at: int, period: int, clock: int, turns: seq<Turn>, k: nat)
    requires k < |turns| && forall i :: 0 <= i <= k ==> Continues(turns[i])
    ensures var starts := Starts(at, period, clock, turns);
            k < |starts| &&
            var free := if k == 0 then clock else starts[k - 1] + turns[k - 1].duration;
            starts[k] == (if at + k * period > free then at + k * period else free) + turns[k].late
    decreases k
  {
    assert Continues(turns[0]);
    if k > 0 {
      var b := Begin(at, clock, turns[0]);
      StartsExactly(at + period, period, b + turns[0].duration, turns[1..], k - 1);
      assert at + period + (k - 1) * period == at + k * period;
    }
  }

  /** A cancelled turn is the last: its run begins unless the cancellation came in the sleep before it. */
  lemma {:induction false} CancelledIsLast(at: int, period: int, clock: int, turns: seq<Turn>, k: nat)
    requires k < |turns| && (forall i :: 0 <= i < k ==> Continues(turns[i])) && !Continues(turns[k])
    ensures var starts := Starts(at, period, clock, turns);
            k <= |starts| &&
            var free := if k == 0 then clock else starts[k - 1] + turns[k - 1].duration;
            |starts| == if turns[k].outcome == CancelledAsleep && at + k * period > free then k else k + 1
    decreases k
  {
    if k > 0 {
      assert Continues(turns[0]);
      var b := Begin(at, clock, turns[0]);
      CancelledIsLast(at + period, period, b + turns[0].duration, turns[1..], k - 1);
      assert at + period + (k - 1) * period == at + k * period;
    }
  }

  /** Run k never begins before its slot, whatever the runs before it did. */
  lemma {:induction false} NeverEarly(at: int, period: int, clock: int, turns: seq<Turn>, k: nat)
    requires k < |Starts(at, period, clock, turns)|
    ensures Starts(at, period, clock, turns)[k] >= at + k * period
    decreases k
  {
    if k > 0 {
      var b := Begin(at, clock, turns[0]);
      NeverEarly(at + period, period, b + turns[0].duration, turns[1..], k - 1);
      assert at + period + (k - 1) * period == at + k * period;
    }
  }

  /** The turn ends by the next slot when it begins in its own. */
  predicate OnTime(period: int, t: Turn) {
    t.late + t.duration <= period
  }

  /** When the runs before it end by their next slots, run k begins as late as its own sleep makes it. */
  lemma {:induction false} LatenessDoesNotAddUp(at: int, period: int, clock: int, turns: seq<Turn>, k: nat)
    requires k < |Starts(at, period, clock, turns)| && clock <= at
    requires forall i :: 0 <= i < k && i < |turns| ==> OnTime(period, turns[i])
    ensures k < |turns| && Starts(at, period, clock, turns)[k] == at + k * period + turns[k].late
    decreases k
  {
    if k > 0 {
      var b := Begin(at, clock, turns[0]);
      assert OnTime(period, turns[0]);
      LatenessDoesNotAddUp(at + period, period, b + turns[0].duration, turns[1..], k - 1);
      assert at + period + (k - 1) * period == at + k * period;
    }
  }

  /** How many of the runs have begun by a time. */
  function BegunBy(starts: seq<int>, time: int): nat {
    if starts == [] then 0
    else BegunBy(starts[..|starts| - 1], time) + if starts[|starts| - 1] <= time then 1 else 0
  }

  lemma {:induction false} BegunBound(starts: seq<int>, at: int, period: int, time: int)
    requires period > 0 && time >= at
    requires forall k :: 0 <= k < |starts| ==> starts[k] >= at + k * period
    ensures BegunBy(starts, time) <= |starts|
    ensures BegunBy(starts, time) <= (time - at) / period + 1
  {
    if starts != [] {
      var n := |starts| - 1;
      BegunBound(starts[..n], at, period, time);
      if starts[n] <= time {
        assert n * period <= time - at;
        DivideBound(n, period, time - at);
      }
    }
  }

  lemma {:induction false} DivideBound(n: nat, period: int, span: int)
    requires period > 0 && n * period <= span
    ensures n <= span / period
  {
    var q := span / period;
    assert span == q * period + span % period;
    if q < n {
      ScaleOrder(q + 1, n, period);
    }
  }

  lemma {:induction false} ScaleOrder(a: int, b: int, period: int)
    requires a <= b && period > 0
    ensures a * period <= b * period
  {
    assert (b - a) * period == b * period - a * period;
  }

  /** So by any time, at most one run more than there have been whole periods has begun. */
  lemma {:induction false} AtMostOneRunPerPeriod(at: int, period: int, clock: int, turns: seq<Turn>, time: int)
    requires period > 0 && time >= at
    ensures BegunBy(Starts(at, period, clock, turns), time) <= (time - at) / period + 1
  {
    var starts := Starts(at, period, clock, turns);
    forall k | 0 <= k < |starts| ensures starts[k] >= at + k * period {
      NeverEarly(at, period, clock, turns, k);
    }
    BegunBound(starts, at, period, time);
  }
}
