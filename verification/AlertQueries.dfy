/** The queries over stored alerts: how their filters are built, and the support bundle made of three of them. */
module AlertQueries {
  import opened Prelude
  import opened FilterTree
  import opened AlertModel
  import Paging

  const RECORD_LIMIT := 1000
  const WEEK := 7 * 86400

  datatype Cond =
    | CreatedFrom(time: int)
    | CreatedTo(time: int)
    | ResolvedIs(value: bool)
    | AcknowledgedIs(value: bool)
    | SeverityIs(severity: string)

  predicate Holds(a: Alert, c: Cond) {
    match c
    case CreatedFrom(t) => a.createdTime >= t
    case CreatedTo(t) => a.createdTime <= t
    case ResolvedIs(b) => a.resolved == b
    case AcknowledgedIs(b) => a.acknowledged == b
    case SeverityIs(s) => a.details.severity == s
  }

  datatype Request = Request(start: Option<int>, end: Option<int>, showAll: bool, severity: string,
                             resolved: Option<bool>, acknowledged: Option<bool>, showActive: bool)

  predicate InRange(q: Request, a: Alert) {
    && (q.start.Some? ==> q.start.value <= a.createdTime)
    && (q.end.Some? ==> a.createdTime <= q.end.value)
  }

  /** Exactly one flag for active alerts; otherwise the flags that are given, and not both unless all are shown. */
  predicate StatusAsked(q: Request, a: Alert) {
    if q.showActive then a.resolved != a.acknowledged
    else
      && (q.showAll || Open(a))
      && (q.resolved.Some? ==> a.resolved == q.resolved.value)
      && (q.acknowledged.Some? ==> a.acknowledged == q.acknowledged.value)
  }

  /** The alerts that a request is documented to ask for. */
  predicate Asked(q: Request, a: Alert) {
    InRange(q, a) && StatusAsked(q, a) && (q.severity != "" ==> a.details.severity == q.severity)
  }

  function HoldsOf(a: Alert): Cond -> bool {
    c => Holds(a, c)
  }

  /** A query without a filter selects everything. */
  predicate Selects(f: Option<Filter<Cond>>, a: Alert) {
    f.None? || Eval(f.value, HoldsOf(a))
  }

  predicate AllHold(conds: seq<Filter<Cond>>, a: Alert) {
    Eval(And(conds), HoldsOf(a))
  }

  method Append(conds: seq<Filter<Cond>>, f: Filter<Cond>) returns (r: seq<Filter<Cond>>)
    ensures r == conds + [f]
    ensures forall a :: AllHold(r, a) <==> AllHold(conds, a) && Eval(f, HoldsOf(a))
  {
    r := conds + [f];
    forall a ensures AllHold(r, a) <==> AllHold(conds, a) && Eval(f, HoldsOf(a)) {
      EvalSnoc(conds, f, HoldsOf(a));
    }
  }

  /** Not both flags: the shape built for alerts whose life cycle is not over. */
  method OpenFilter() returns (f: Filter<Cond>)
    ensures forall a :: Eval(f, HoldsOf(a)) <==> Open(a)
  {
    f := Or([Compare(ResolvedIs(false)), Compare(AcknowledgedIs(false))]);
    forall a ensures Eval(f, HoldsOf(a)) <==> Open(a) {
      EvalPair(Compare(ResolvedIs(false)), Compare(AcknowledgedIs(false)), HoldsOf(a));
    }
  }

  lemma {:induction false} FlagPair(acknowledged: bool, resolved: bool, a: Alert)
    ensures Eval(And([Compare(AcknowledgedIs(acknowledged)), Compare(ResolvedIs(resolved))]), HoldsOf(a)) <==>
            a.acknowledged == acknowledged && a.resolved == resolved
  {
    EvalPair(Compare(AcknowledgedIs(acknowledged)), Compare(ResolvedIs(resolved)), HoldsOf(a));
  }

  /** Exactly one flag: the shape built for active alerts. */
  method ActiveFilter() returns (f: Filter<Cond>)
    ensures forall a :: Eval(f, HoldsOf(a)) <==> a.resolved != a.acknowledged
  {
    var acked := And([Compare(AcknowledgedIs(true)), Compare(ResolvedIs(false))]);
    var resolved := And([Compare(AcknowledgedIs(false)), Compare(ResolvedIs(true))]);
    f := Or([acked, resolved]);
    forall a ensures Eval(f, HoldsOf(a)) <==> a.resolved != a.acknowledged {
      assert (Eval(acked, HoldsOf(a)) <==> a.acknowledged && !a.resolved)
        && (Eval(resolved, HoldsOf(a)) <==> !a.acknowledged && a.resolved) by {
        FlagPair(true, false, a);
        FlagPair(false, true, a);
      }
      EvalPair(acked, resolved, HoldsOf(a));
    }
  }

  method PrepareTimeRange(q: Request) returns (conds: seq<Filter<Cond>>)
    ensures forall a :: AllHold(conds, a) <==> InRange(q, a)
  {
    conds := [];
    if q.start.Some? {
      conds := Append(conds, Compare(CreatedFrom(q.start.value)));
    }
    if q.end.Some? {
      conds := Append(conds, Compare(CreatedTo(q.end.value)));
    }
  }

  method AppendStatus(conds: seq<Filter<Cond>>, q: Request) returns (r: seq<Filter<Cond>>)
    ensures forall a :: AllHold(r, a) <==> AllHold(conds, a) && StatusAsked(q, a)
  {
    r := conds;
    if q.showActive {
      var active := ActiveFilter();
      r := Append(r, active);
    } else {
      if !q.showAll {
        var open := OpenFilter();
        r := Append(r, open);
      }
      if q.resolved.Some? {
        r := Append(r, Compare(ResolvedIs(q.resolved.value)));
      }
      if q.acknowledged.Some? {
        r := Append(r, Compare(AcknowledgedIs(q.acknowledged.value)));
      }
    }
  }

  /** The filter that is built for a request selects what the request asks for. */
  method PrepareFilters(q: Request) returns (f: Option<Filter<Cond>>)
    ensures forall a :: Selects(f, a) <==> Asked(q, a)
    ensures forall a :: Selects(f, a) <==>
              && (q.start.Some? ==> q.start.value <= a.createdTime)
              && (q.end.Some? ==> a.createdTime <= q.end.value)
              && (q.severity != "" ==> a.details.severity == q.severity)
              && (q.showActive ==> a.resolved != a.acknowledged)
              && (!q.showActive ==>
                    && (!q.showAll ==> !a.resolved || !a.acknowledged)
                    && (q.resolved.Some? ==> a.resolved == q.resolved.value)
                    && (q.acknowledged.Some? ==> a.acknowledged == q.acknowledged.value))
  {
    var conds := PrepareTimeRange(q);
    conds := AppendStatus(conds, q);
    if q.severity != "" {
      conds := Append(conds, Compare(SeverityIs(q.severity)));
    }
    assert forall a :: AllHold(conds, a) <==> Asked(q, a);
    f := if conds == [] then None else Some(And(conds));
  }

  // ----- Answers -----

  function Where(rs: seq<Found>, p: Found -> bool): seq<Found> {
    if rs == [] then []
    else if p(rs[0]) then [rs[0]] + Where(rs[1..], p)
    else Where(rs[1..], p)
  }

  lemma {:induction false} WhereCount(rs: seq<Found>, p: Found -> bool, x: Found)
    ensures multiset(Where(rs, p))[x] == if p(x) then multiset(rs)[x] else 0
  {
    if rs != [] {
      WhereCount(rs[1..], p, x);
      assert rs == [rs[0]] + rs[1..];
    }
  }

  lemma {:induction false} WhereSame(rs: seq<Found>, p: Found -> bool, q: Found -> bool)
    requires forall x :: p(x) <==> q(x)
    ensures Where(rs, p) == Where(rs, q)
  {
    if rs != [] {
      WhereSame(rs[1..], p, q);
    }
  }

  function Asks(q: Request): Found -> bool {
    (x: Found) => Asked(q, x.alert)
  }

  function Beyond<T>(s: seq<T>, n: nat): seq<T> {
    if |s| <= n then [] else s[n..]
  }

  /** The records that a request asks for, from its offset and up to its limit; the record limit without limits. */
  method RetrieveByRange(rs: seq<Found>, q: Request, limits: Option<Paging.Limits>) returns (r: seq<Found>)
    ensures r == Paging.Answer(Where(rs, Asks(q)),
                               if limits.Some? then limits.value else Paging.Limits(1000, 0))
  {
    var f := PrepareFilters(q);
    var selects := (x: Found) => Selects(f, x.alert);
    WhereSame(rs, selects, Asks(q));
    var effective := limits;
    if effective.None? {
      effective := Some(Paging.Limits(RECORD_LIMIT, 0));
    }
    r := Where(rs, selects);
    if effective.value.offset != 0 {
      r := if effective.value.offset >= |r| then [] else r[effective.value.offset..];
    }
    if effective.value.limit != 0 && effective.value.limit < |r| {
      r := r[..effective.value.limit];
    }
  }

  /** What a query without limits answers. */
  function Limited(rs: seq<Found>, q: Request): seq<Found> {
    Paging.Answer(Where(rs, Asks(q)), Paging.Limits(RECORD_LIMIT, 0))
  }

  const NEW_ALERTS := Request(None, None, true, "", Some(false), Some(false), false)
  const ACTIVE_ALERTS := Request(None, None, true, "", None, None, true)

  function ClosedSince(start: int): Request {
    Request(Some(start), None, true, "", Some(true), Some(true), false)
  }

  predicate NotIem(x: Found) {
    !IsIem(x.alert.key)
  }

  /** What a support bundle should list: open alerts, and alerts closed in their life cycle for at most a week. */
  predicate Wanted(now: int, x: Found) {
    NotIem(x) && (Open(x.alert) || now - 7 * 24 * 3600 <= x.alert.createdTime)
  }

  function Cut(rs: seq<Found>, q: Request): seq<Found> {
    Beyond(Where(rs, Asks(q)), RECORD_LIMIT)
  }

  /** Whether the record limit cuts this alert off the answer of a query that should list it. */
  predicate IsCutOff(rs: seq<Found>, now: int, x: Found) {
    NotIem(x) && (x in Cut(rs, NEW_ALERTS) || x in Cut(rs, ACTIVE_ALERTS) || x in Cut(rs, ClosedSince(now - WEEK)))
  }

  function WantedCount(rs: seq<Found>, now: int, x: Found): nat {
    if Wanted(now, x) then multiset(rs)[x] else 0
  }

  /**
   * The bundle never lists an alert too often or an unwanted one, and it lists every wanted
   * alert as often as the store does exactly when the record limit cuts none of them off.
   */
  method FetchForSupportBundle(rs: seq<Found>, now: int) returns (bundle: seq<Found>)
    ensures forall x :: multiset(bundle)[x] <= WantedCount(rs, now, x)
    ensures (forall x :: multiset(bundle)[x] == WantedCount(rs, now, x)) <==>
            (forall x :: !IsCutOff(rs, now, x))
  {
    var combined := RetrieveByRange(rs, NEW_ALERTS, None);
    var active := RetrieveByRange(rs, ACTIVE_ALERTS, None);
    combined := combined + active;
    var closed := RetrieveByRange(rs, ClosedSince(now - WEEK), None);
    combined := combined + closed;
    bundle := Where(combined, NotIem);
    forall x
      ensures multiset(bundle)[x] <= WantedCount(rs, now, x)
      ensures multiset(bundle)[x] == WantedCount(rs, now, x) <==> !IsCutOff(rs, now, x)
    {
      BundleCount(rs, now, bundle, x);
    }
  }

  /** What a query answers and what the limit cuts off are together what it asks for. */
  lemma {:induction false} CountOf(rs: seq<Found>, q: Request, x: Found)
    ensures multiset(Limited(rs, q))[x] + multiset(Cut(rs, q))[x] ==
            if Asked(q, x.alert) then multiset(rs)[x] else 0
  {
    var w := Where(rs, Asks(q));
    assert w == Limited(rs, q) + Cut(rs, q);
    WhereCount(rs, Asks(q), x);
  }

  /** The three queries are disjoint and together ask for each wanted alert once. */
  lemma {:induction false} BundleCount(rs: seq<Found>, now: int, bundle: seq<Found>, x: Found)
    requires bundle == Where(Limited(rs, NEW_ALERTS) + Limited(rs, ACTIVE_ALERTS)
                             + Limited(rs, ClosedSince(now - WEEK)), NotIem)
    ensures multiset(bundle)[x] <= WantedCount(rs, now, x)
    ensures multiset(bundle)[x] == WantedCount(rs, now, x) <==> !IsCutOff(rs, now, x)
  {
    CountOf(rs, NEW_ALERTS, x);
    CountOf(rs, ACTIVE_ALERTS, x);
    CountOf(rs, ClosedSince(now - WEEK), x);
    WhereCount(Limited(rs, NEW_ALERTS) + Limited(rs, ACTIVE_ALERTS) + Limited(rs, ClosedSince(now - WEEK)), NotIem, x);
  }

  lemma {:induction false} WhereAll(rs: seq<Found>, p: Found -> bool)
    requires forall x :: x in rs ==> p(x)
    ensures Where(rs, p) == rs
  {
    if rs != [] {
      WhereAll(rs[1..], p);
    }
  }

  lemma {:induction false} AllCut(rs: seq<Found>, q: Request, n: nat)
    requires RECORD_LIMIT <= n < |rs| && forall x :: x in rs ==> Asks(q)(x)
    ensures rs[n] in Cut(rs, q)
  {
    WhereAll(rs, Asks(q));
    assert rs[RECORD_LIMIT..][n - RECORD_LIMIT] == rs[n];
  }

  /** The limit does cut: of more than a thousand new alerts, those after the thousandth are not listed. */
  lemma {:induction false} NewAlertsCutOff(rs: seq<Found>, now: int, n: nat)
    requires RECORD_LIMIT <= n < |rs|
    requires forall x :: x in rs ==> NotIem(x) && !x.alert.resolved && !x.alert.acknowledged
    ensures IsCutOff(rs, now, rs[n])
  {
    AllCut(rs, NEW_ALERTS, n);
  }
}
