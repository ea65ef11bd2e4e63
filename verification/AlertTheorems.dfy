/** The alert life cycle over whole runs. */
module AlertTheorems {
  import opened Prelude
  import opened AlertModel
  import opened AlertInvariants

  // ----- Every reachable state -----

  lemma {:induction false} AlwaysOk(p: Policy, ss: seq<Sys>, es: seq<Event>, i: nat)
    requires Behavior(p, ss, es) && i < |ss|
    ensures PendingOk(ss[i]) && FlagsOk(p, ss[i]) && CommentsOk(ss[i])
  {
    if i > 0 {
      AlwaysOk(p, ss, es, i - 1);
      assert Step(p, ss[i - 1], es[i - 1], ss[i]);
      PendingOkStep(p, ss[i - 1], es[i - 1], ss[i]);
      FlagsOkStep(p, ss[i - 1], es[i - 1], ss[i]);
      CommentsOkStep(p, ss[i - 1], es[i - 1], ss[i]);
    }
  }

  lemma {:induction false} AlwaysTracked(p: Policy, ss: seq<Sys>, es: seq<Event>, i: nat)
    requires Behavior(p, ss, es) && LookupsSucceed(es) && i < |ss|
    ensures LookupInv(ss[i]) && EpisodesOk(p, ss[i])
  {
    if i > 0 {
      AlwaysTracked(p, ss, es, i - 1);
      AlwaysOk(p, ss, es, i - 1);
      assert Step(p, ss[i - 1], es[i - 1], ss[i]);
      LookupInvStep(p, ss[i - 1], es[i - 1], ss[i]);
      EpisodesOkStep(p, ss[i - 1], es[i - 1], ss[i]);
    }
  }

  /** For every alert that is not an IEM alert, resolved holds exactly when its state is good. */
  lemma {:induction false} ResolvedMeansGood(p: Policy, ss: seq<Sys>, es: seq<Event>, i: nat, id: string)
    requires Behavior(p, ss, es) && i < |ss|
    requires id in ss[i].store && !IsIem(ss[i].store[id].key)
    ensures ss[i].store[id].resolved <==> ss[i].store[id].state in p.good
  {
    AlwaysOk(p, ss, es, i);
    assert ResolvedIffGood(p, ss[i].store[id]);
  }

  // ----- The same rule for all alerts, IEM alerts included -----

  predicate Consistent(p: Policy, a: Alert) {
    a.resolved <==> a.state in p.good
  }

  ghost predicate AllConsistent(p: Policy, s: Sys) {
    && (forall id :: id in s.store ==> Consistent(p, s.store[id]))
    && (s.pending.Some? && s.pending.value.prev.Some? ==> Consistent(p, s.pending.value.prev.value.alert))
  }

  /** A bulk request gets to an id before it meets an unknown one. */
  predicate Reaches(s: Store, ids: seq<string>, id: string) {
    ids != [] && ids[0] in s && (ids[0] == id || Reaches(s, ids[1..], id))
  }

  /** The request acknowledges, or un-acknowledges, an IEM alert whose state is not good. */
  ghost predicate AcknowledgesBadIem(p: Policy, s: Store, e: Event) {
    match e
    case Acknowledge(id, value, _) =>
      id in s && Open(s[id]) && value.Some? && IsIem(s[id].key) && s[id].state !in p.good
    case AcknowledgeAll(ids, _) =>
      exists id :: id in s && Reaches(s, ids, id) && IsIem(s[id].key) && s[id].state !in p.good
    case _ => false
  }

  lemma {:induction false} ReachesSameKeys(s: Store, t: Store, ids: seq<string>, id: string)
    requires s.Keys == t.Keys
    ensures Reaches(s, ids, id) <==> Reaches(t, ids, id)
    decreases |ids|
  {
    if ids != [] {
      ReachesSameKeys(s, t, ids[1..], id);
    }
  }

  /** A bulk request resolves exactly the IEM alerts that it gets to. */
  lemma {:induction false} BulkResolves(s: Store, ids: seq<string>, now: int, id: string)
    requires id in s
    ensures var t := AcknowledgeAllIn(s, ids, now);
            id in t && t[id].state == s[id].state &&
            (t[id].resolved <==> s[id].resolved || (IsIem(s[id].key) && Reaches(s, ids, id)))
    decreases |ids|
  {
    if ids != [] && ids[0] in s {
      var t := s[ids[0] := Acknowledged(s[ids[0]], true, now)];
      BulkResolves(t, ids[1..], now, id);
      ReachesSameKeys(s, t, ids[1..], id);
    }
  }

  /** A step breaks the rule exactly when it acknowledges an IEM alert that is not good. */
  lemma {:induction false} InconsistentIff(p: Policy, s: Sys, e: Event, t: Sys)
    requires PendingOk(s) && AllConsistent(p, s) && Step(p, s, e, t)
    ensures !AllConsistent(p, t) <==> AcknowledgesBadIem(p, s.store, e)
  {
    match e
    case AcknowledgeAll(ids, now) =>
      AcknowledgeAllMoves(s.store, ids, now);
      forall id | id in s.store
        ensures Consistent(p, t.store[id]) <==>
                !(Reaches(s.store, ids, id) && IsIem(s.store[id].key) && s.store[id].state !in p.good)
      {
        BulkResolves(s.store, ids, now, id);
      }
    case Acknowledge(id, value, now) =>
      if AcknowledgesBadIem(p, s.store, e) {
        assert !Consistent(p, t.store[id]);
      }
    case AddComment(_, _, _, _) =>
      UserEventMoves(p, s, e);
    case _ =>
  }

  /** So the rule holds of all alerts throughout a run exactly when no request of the run does that. */
  lemma {:induction false} ConsistentRunIff(p: Policy, ss: seq<Sys>, es: seq<Event>)
    requires Behavior(p, ss, es)
    ensures (forall i :: 0 <= i < |ss| ==> AllConsistent(p, ss[i])) <==>
            (forall i :: 0 <= i < |es| ==> !AcknowledgesBadIem(p, ss[i].store, es[i]))
  {
    if forall i :: 0 <= i < |es| ==> !AcknowledgesBadIem(p, ss[i].store, es[i]) {
      forall i | 0 <= i < |ss| ensures AllConsistent(p, ss[i]) {
        StaysConsistent(p, ss, es, i);
      }
    } else {
      var i :| 0 <= i < |es| && AcknowledgesBadIem(p, ss[i].store, es[i]);
      if AllConsistent(p, ss[i]) {
        AlwaysOk(p, ss, es, i);
        assert Step(p, ss[i], es[i], ss[i + 1]);
        InconsistentIff(p, ss[i], es[i], ss[i + 1]);
      }
    }
  }

  lemma {:induction false} StaysConsistent(p: Policy, ss: seq<Sys>, es: seq<Event>, n: nat)
    requires Behavior(p, ss, es) && n < |ss|
    requires forall i :: 0 <= i < |es| ==> !AcknowledgesBadIem(p, ss[i].store, es[i])
    ensures AllConsistent(p, ss[n])
  {
    if n > 0 {
      StaysConsistent(p, ss, es, n - 1);
      AlwaysOk(p, ss, es, n - 1);
      assert Step(p, ss[n - 1], es[n - 1], ss[n]);
      InconsistentIff(p, ss[n - 1], es[n - 1], ss[n]);
    }
  }

  /** A run that does: a request to un-acknowledge an IEM alert resolves it in its bad state. */
  lemma {:induction false} IemResolvedWhileBad(p: Policy, m: Message, now: int) returns (ss: seq<Sys>, es: seq<Event>)
    requires IsIem(m.key) && m.state in p.bad
    ensures Behavior(p, ss, es) && m.id in ss[|es|].store
    ensures var a := ss[|es|].store[m.id]; a.resolved && Open(a) && a.state in p.bad
  {
    es := [Lookup(m, None), Write(now), Acknowledge(m.id, Some(false), now)];
    var s1 := Apply(p, INIT, es[0]);
    var s2 := Apply(p, s1, es[1]);
    ss := [INIT, s1, s2, Apply(p, s2, es[2])];
  }

  /** Comment ids are 1..n in append order, through every other operation. */
  lemma {:induction false} CommentIdsCount(p: Policy, ss: seq<Sys>, es: seq<Event>, i: nat, id: string, n: nat)
    requires Behavior(p, ss, es) && i < |ss|
    requires id in ss[i].store && n < |CommentsOf(ss[i].store[id])|
    ensures CommentsOf(ss[i].store[id])[n].id == n + 1
  {
    AlwaysOk(p, ss, es, i);
    assert Numbered(ss[i].store[id]);
  }

  /** At most one alert per sensor is open, wherever the user requests land. */
  lemma {:induction false} OneOpenAlertPerSensor(p: Policy, ss: seq<Sys>, es: seq<Event>, i: nat,
                                                 k: Key, a: string, b: string)
    requires Behavior(p, ss, es) && LookupsSucceed(es) && i < |ss|
    requires OpenFor(ss[i].store, k, a) && OpenFor(ss[i].store, k, b)
    ensures a == b
  {
    AlwaysTracked(p, ss, es, i);
  }

  /** A write that puts a whole alert in place instead of updating the open one. */
  predicate Replaces(m: Pending) {
    m.prev.None? || m.msg.state == m.prev.value.alert.state
  }

  function Target(m: Pending): string {
    if m.prev.None? then m.msg.id else m.prev.value.id
  }

  /** Whatever the lookups did, a write breaks the rule exactly when it puts an alert beside an open one. */
  lemma {:induction false} WriteBreaksOneOpenIff(p: Policy, s: Sys, now: int)
    requires PendingOk(s) && s.pending.Some? && OneOpen(s.store)
    ensures !OneOpen(Apply(p, s, Write(now)).store) <==>
              Replaces(s.pending.value) &&
              exists id :: id != Target(s.pending.value) && OpenFor(s.store, s.pending.value.msg.key, id)
  {
    var m := s.pending.value.msg;
    var target := Target(s.pending.value);
    var t := Apply(p, s, Write(now)).store;
    if Replaces(s.pending.value) {
      assert OpenFor(t, m.key, target);
      forall k, id | id != target ensures OpenFor(t, k, id) <==> OpenFor(s.store, k, id) {}
    } else {
      forall k, id | OpenFor(t, k, id) ensures OpenFor(s.store, k, id) {}
    }
  }

  /** The states that five events lead through. */
  function Play(p: Policy, es: seq<Event>): (ss: seq<Sys>)
    requires |es| == 5
    ensures |ss| == 6 && ss[0] == INIT
    ensures ss[1] == Apply(p, ss[0], es[0]) && ss[2] == Apply(p, ss[1], es[1]) && ss[3] == Apply(p, ss[2], es[2])
    ensures ss[4] == Apply(p, ss[3], es[3]) && ss[5] == Apply(p, ss[4], es[4])
  {
    var s1 := Apply(p, INIT, es[0]);
    var s2 := Apply(p, s1, es[1]);
    var s3 := Apply(p, s2, es[2]);
    var s4 := Apply(p, s3, es[3]);
    [INIT, s1, s2, s3, s4, Apply(p, s4, es[4])]
  }

  /** A failed lookup does break it: two messages of one sensor leave two open alerts. */
  lemma {:induction false} FailedLookupOpensTwo(p: Policy, m: Message, n: Message, now: int)
    returns (ss: seq<Sys>, es: seq<Event>)
    requires m.key == n.key && m.id != n.id
    ensures Behavior(p, ss, es) && !OneOpen(ss[|es|].store)
  {
    es := [Lookup(m, None), Write(now), LookupFailed(n), Write(now)];
    var s1 := Apply(p, INIT, es[0]);
    var s2 := Apply(p, s1, es[1]);
    var s3 := Apply(p, s2, es[2]);
    var s4 := Apply(p, s3, es[3]);
    ss := [INIT, s1, s2, s3, s4];
    assert s2.history == [Annotate(p, m)];
    assert OpenFor(s4.store, m.key, m.id) && OpenFor(s4.store, m.key, n.id);
  }

  // ----- Episodes: the stored state is what a scan of the messages gives -----

  /**
   * For an alert that is open before or after a step, so through the step that closes it,
   * the stored state, severity and health are those that a scan of the messages finds,
   * and resolved says whether that state is good.
   */
  lemma {:induction false} EpisodeRefinesScan(p: Policy, ss: seq<Sys>, es: seq<Event>, i: nat, id: string)
    requires Behavior(p, ss, es) && LookupsSucceed(es) && i < |es|
    requires id in ss[i + 1].store && !IsIem(ss[i + 1].store[id].key)
    requires Open(ss[i + 1].store[id]) || (id in ss[i].store && Open(ss[i].store[id]))
    ensures var a := ss[i + 1].store[id];
            var h := ss[i + 1].history;
            HasId(h, id) && Shows(a, LatestMessage(p, h, a.key, id)) &&
            (a.resolved <==> LatestMessage(p, h, a.key, id).state in p.good)
  {
    var s, t := ss[i], ss[i + 1];
    AlwaysTracked(p, ss, es, i);
    AlwaysTracked(p, ss, es, i + 1);
    AlwaysOk(p, ss, es, i);
    ResolvedMeansGood(p, ss, es, i + 1, id);
    assert Step(p, s, es[i], t);
    if es[i].Write? {
      WriteKeepsEpisode(p, s, es[i], t, id);
    } else if IsUserEvent(es[i]) {
      UserEventMoves(p, s, es[i]);
      assert UserMove(s.store[id], t.store[id]);
    }
  }

  /**
   * The scan spelled out: the state found is that of the latest good-or-bad message of the
   * sensor after the opening one, or the opening message's state when there is none.
   */
  lemma {:induction false} ScanFindsLatestDecisive(p: Policy, h: seq<Message>, k: Key, id: string, opening: nat, n: nat)
    requires opening < |h| && h[opening].id == id && forall j :: 0 <= j < |h| && j != opening ==> h[j].id != id
    requires opening <= n < |h|
    requires n == opening || (h[n].key == k && p.Decisive(h[n].state))
    requires forall j :: n < j < |h| ==> !(h[j].key == k && p.Decisive(h[j].state))
    ensures HasId(h, id) && LatestMessage(p, h, k, id).state == h[n].state
  {
    var last := |h| - 1;
    if n < last {
      var before := h[..last];
      assert forall j :: 0 <= j < last ==> before[j] == h[j];
      ScanFindsLatestDecisive(p, before, k, id, opening, n);
    } else if n != opening {
      assert h[..last][opening].id == id;
    }
  }

  /**
   * A good message over a copy that is not good takes effect exactly when the alert is still
   * open and the copy is not resolved: otherwise the guard on the flag, or the closing, drops it.
   */
  lemma {:induction false} GoodMessageTakesEffectIff(p: Policy, ss: seq<Sys>, es: seq<Event>, i: nat, now: int)
    requires Behavior(p, ss, es) && i < |ss| && ss[i].pending.Some? && ss[i].pending.value.prev.Some?
    requires ss[i].pending.value.msg.state in p.good && ss[i].pending.value.prev.value.alert.state !in p.good
    ensures var Pending(m, prev) := ss[i].pending.value;
            var id := prev.value.id;
            var t := Apply(p, ss[i], Write(now)).store;
            id in ss[i].store && id in t &&
            (t[id].state == m.state <==> Open(ss[i].store[id]) && !prev.value.alert.resolved) &&
            (t[id].state == m.state ==> t[id].resolved) &&
            (t[id].state != m.state ==> t[id] == ss[i].store[id])
  {
    AlwaysOk(p, ss, es, i);
  }

  /** For an alert that is not an IEM alert neither happens: it is still open, and the message resolves it. */
  lemma {:induction false} GuardNeverBlocks(p: Policy, ss: seq<Sys>, es: seq<Event>, i: nat, now: int)
    requires Behavior(p, ss, es) && i < |ss| && ss[i].pending.Some? && ss[i].pending.value.prev.Some?
    requires ss[i].pending.value.msg.state in p.good && ss[i].pending.value.prev.value.alert.state !in p.good
    requires !IsIem(ss[i].pending.value.msg.key)
    ensures var m := ss[i].pending.value.msg;
            var id := Target(ss[i].pending.value);
            var t := Apply(p, ss[i], Write(now)).store;
            OpenFor(ss[i].store, m.key, id) && id in t && t[id].resolved && t[id].state == m.state
  {
    AlwaysOk(p, ss, es, i);
    assert ResolvedIffGood(p, ss[i].store[Target(ss[i].pending.value)]);
    GoodMessageTakesEffectIff(p, ss, es, i, now);
  }

  /** For IEM alerts the guard does block: a run in which a good message leaves an open alert bad. */
  lemma {:induction false} IemGuardBlocks(p: Policy, m: Message, n: Message, now: int)
    returns (ss: seq<Sys>, es: seq<Event>)
    requires m.key == n.key && m.id != n.id && IsIem(m.key) && m.state in p.bad && n.state in p.good
    ensures Behavior(p, ss, es) && LookupsSucceed(es)
    ensures ss[|es|].history == [Annotate(p, m), Annotate(p, n)]
    ensures OpenFor(ss[|es|].store, m.key, m.id) && ss[|es|].store[m.id].state == m.state
    ensures n.id !in ss[|es|].store
  {
    es := [Lookup(m, None), Write(now), Acknowledge(m.id, Some(false), now), Lookup(n, Some(m.id)), Write(now)];
    ss := Play(p, es);
    assert ss[2].history == [Annotate(p, m)];
  }

  /**
   * A bad message that has been written shows as an open, unresolved alert in its state,
   * unless it was an update whose alert a user closed after the lookup.
   */
  lemma {:induction false} BadMessageShowsIff(p: Policy, ss: seq<Sys>, es: seq<Event>, i: nat, now: int)
    requires Behavior(p, ss, es) && LookupsSucceed(es) && i < |ss| && ss[i].pending.Some?
    requires ss[i].pending.value.msg.state in p.bad && !IsIem(ss[i].pending.value.msg.key)
    ensures var m := ss[i].pending.value.msg;
            var t := Apply(p, ss[i], Write(now)).store;
            (exists id :: OpenFor(t, m.key, id) && t[id].state == m.state && !t[id].resolved) <==>
            (Replaces(ss[i].pending.value) || OpenFor(ss[i].store, m.key, Target(ss[i].pending.value)))
  {
    AlwaysOk(p, ss, es, i);
    AlwaysTracked(p, ss, es, i);
    var s := ss[i];
    var Pending(m, prev) := s.pending.value;
    var t := Apply(p, s, Write(now)).store;
    var target := Target(s.pending.value);
    if Replaces(s.pending.value) || OpenFor(s.store, m.key, target) {
      assert OpenFor(t, m.key, target) && t[target].state == m.state && !t[target].resolved;
    } else {
      forall id | OpenFor(t, m.key, id) ensures OpenFor(s.store, m.key, id) {}
    }
  }

  /** A run in which one does not show: acknowledging the good alert first leaves the sensor without an open alert. */
  lemma {:induction false} BadMessageVanishes(p: Policy, m: Message, n: Message, now: int)
    returns (ss: seq<Sys>, es: seq<Event>)
    requires m.key == n.key && m.id != n.id && m.state in p.good && n.state in p.bad
    ensures Behavior(p, ss, es) && LookupsSucceed(es)
    ensures ss[|es|].history == [Annotate(p, m), Annotate(p, n)]
    ensures forall id :: !OpenFor(ss[|es|].store, m.key, id)
  {
    es := [Lookup(m, None), Write(now), Lookup(n, Some(m.id)), Acknowledge(m.id, Some(true), now), Write(now)];
    ss := Play(p, es);
    assert ss[2].history == [Annotate(p, m)];
  }

  // ----- Closed alerts -----

  predicate SameButTime(a: Alert, b: Alert) {
    b == a.(updatedTime := b.updatedTime)
  }

  /** A repeated message in flight is about to put its copy of alert id back. */
  predicate Endangered(s: Sys, id: string) {
    s.pending.Some? && s.pending.value.prev.Some? && Replaces(s.pending.value) && Target(s.pending.value) == id
  }

  /** One step opens a closed alert exactly when it writes back a copy taken before the alert was closed. */
  lemma {:induction false} ReopensIff(p: Policy, ss: seq<Sys>, es: seq<Event>, i: nat, id: string)
    requires Behavior(p, ss, es) && i < |es|
    requires id in ss[i].store && !Open(ss[i].store[id])
    ensures id in ss[i + 1].store
    ensures Open(ss[i + 1].store[id]) <==> es[i].Write? && Endangered(ss[i], id)
    ensures !Open(ss[i + 1].store[id]) ==> SameButTime(ss[i].store[id], ss[i + 1].store[id])
  {
    AlwaysOk(p, ss, es, i);
    assert Step(p, ss[i], es[i], ss[i + 1]);
    if IsUserEvent(es[i]) {
      UserEventMoves(p, ss[i], es[i]);
      assert UserMove(ss[i].store[id], ss[i + 1].store[id]);
    }
  }

  /**
   * A closed alert that no message in flight is about to put back stays closed for ever,
   * and everything in it but its update time stays as it is.
   */
  lemma {:induction false} ClosedIsFrozen(p: Policy, ss: seq<Sys>, es: seq<Event>, i: nat, j: nat, id: string)
    requires Behavior(p, ss, es) && i <= j < |ss|
    requires id in ss[i].store && !Open(ss[i].store[id]) && !Endangered(ss[i], id)
    ensures id in ss[j].store && !Open(ss[j].store[id]) && !Endangered(ss[j], id)
    ensures SameButTime(ss[i].store[id], ss[j].store[id])
  {
    if i < j {
      ClosedIsFrozen(p, ss, es, i, j - 1, id);
      ReopensIff(p, ss, es, j - 1, id);
      assert Step(p, ss[j - 1], es[j - 1], ss[j]);
      if IsUserEvent(es[j - 1]) {
        UserEventMoves(p, ss[j - 1], es[j - 1]);
      }
    }
  }

  /** The exception is real: acknowledging between the lookup and the write of a repeated message is undone. */
  lemma {:induction false} RepeatedMessageReopens(p: Policy, m: Message, n: Message, now: int)
    returns (ss: seq<Sys>, es: seq<Event>)
    requires m.key == n.key && m.id != n.id && m.state == n.state && m.state in p.good
    ensures Behavior(p, ss, es) && LookupsSucceed(es) && |es| == 5
    ensures m.id in ss[4].store && !Open(ss[4].store[m.id])
    ensures m.id in ss[5].store && Open(ss[5].store[m.id])
  {
    es := [Lookup(m, None), Write(now), Lookup(n, Some(m.id)), Acknowledge(m.id, Some(true), now), Write(now)];
    ss := Play(p, es);
    assert ss[2].history == [Annotate(p, m)];
  }

  // ----- Comments -----

  /**
   * Comments are only ever appended, unless a repeated message in flight puts back a copy
   * of the alert that lacks them.
   */
  lemma {:induction false} CommentsOnlyGrow(p: Policy, ss: seq<Sys>, es: seq<Event>, i: nat, id: string)
    requires Behavior(p, ss, es) && i < |es| && id in ss[i].store
    ensures id in ss[i + 1].store
    ensures CommentsOf(ss[i].store[id]) <= CommentsOf(ss[i + 1].store[id]) <==>
            !(es[i].Write? && Endangered(ss[i], id) &&
              !(CommentsOf(ss[i].store[id]) <= CommentsOf(ss[i].pending.value.prev.value.alert)))
  {
    AlwaysOk(p, ss, es, i);
    assert Step(p, ss[i], es[i], ss[i + 1]);
    if IsUserEvent(es[i]) {
      UserEventMoves(p, ss[i], es[i]);
      assert UserMove(ss[i].store[id], ss[i + 1].store[id]);
    } else if es[i].Write? {
      var Pending(m, prev) := ss[i].pending.value;
      WrittenComments(p, ss[i].store, m, prev, es[i].now, id);
    }
  }

  /** A run in which a comment is lost: it is added between the lookup and the write of a repeated message. */
  lemma {:induction false} RepeatedMessageDropsComment(p: Policy, m: Message, n: Message,
                                                       text: string, author: string, now: int)
    returns (ss: seq<Sys>, es: seq<Event>)
    requires m.key == n.key && m.id != n.id && m.state == n.state
    ensures Behavior(p, ss, es) && LookupsSucceed(es) && |es| == 5
    ensures m.id in ss[4].store && CommentsOf(ss[4].store[m.id]) == [Comment(1, text, author, now)]
    ensures m.id in ss[5].store && CommentsOf(ss[5].store[m.id]) == []
  {
    es := [Lookup(m, None), Write(now), Lookup(n, Some(m.id)), AddComment(m.id, text, author, now), Write(now)];
    ss := Play(p, es);
    assert ss[2].history == [Annotate(p, m)];
  }
}
