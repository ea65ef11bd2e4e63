/**
 * What every step of the alert machine keeps, and what therefore holds in every
 * state of every run, with user requests landing between a message's lookup and
 * its write.
 */
module AlertInvariants {
  import opened Prelude
  import opened AlertModel

  // ----- Invariants -----

  /**
   * The message in flight is new, and what its lookup handed out was an open alert of its
   * sensor, which still has the state that the copy shows.
   */
  ghost predicate PendingOk(s: Sys) {
    s.pending.Some? ==>
      var Pending(m, prev) := s.pending.value;
      Fresh(s, m.id) &&
      (prev.Some? ==>
         prev.value.id in s.store && s.store[prev.value.id].key == m.key == prev.value.alert.key
         && s.store[prev.value.id].state == prev.value.alert.state && Open(prev.value.alert))
  }

  predicate ResolvedIffGood(p: Policy, a: Alert) {
    !IsIem(a.key) ==> (a.resolved <==> a.state in p.good)
  }

  ghost predicate FlagsOk(p: Policy, s: Sys) {
    && (forall id :: id in s.store ==> ResolvedIffGood(p, s.store[id]))
    && (s.pending.Some? && s.pending.value.prev.Some? ==> ResolvedIffGood(p, s.pending.value.prev.value.alert))
  }

  predicate Numbered(a: Alert) {
    forall i :: 0 <= i < |CommentsOf(a)| ==> CommentsOf(a)[i].id == i + 1
  }

  ghost predicate CommentsOk(s: Sys) {
    && (forall id :: id in s.store ==> Numbered(s.store[id]))
    && (s.pending.Some? && s.pending.value.prev.Some? ==> Numbered(s.pending.value.prev.value.alert))
  }

  /** At most one open alert per sensor. */
  ghost predicate OneOpen(s: Store) {
    forall k, i, j :: OpenFor(s, k, i) && OpenFor(s, k, j) ==> i == j
  }

  /** While a message is in flight, only the alert that its lookup found may be open for its sensor. */
  ghost predicate LookupStands(s: Sys) {
    s.pending.Some? ==>
      var Pending(m, prev) := s.pending.value;
      forall id :: OpenFor(s.store, m.key, id) ==> prev.Some? && id == prev.value.id
  }

  /**
   * The reference scan: going back from the latest message, the first message of the
   * sensor that is good or bad or repeats the state before it, or else the message that
   * opened the alert.
   */
  function LatestMessage(p: Policy, h: seq<Message>, k: Key, id: string): Message
    requires HasId(h, id)
  {
    var m := h[|h| - 1];
    if m.id == id then m
    else
      var before := LatestMessage(p, h[..|h| - 1], k, id);
      if m.key == k && (p.Decisive(m.state) || m.state == before.state) then m else before
  }

  /** An alert shows the state, severity and health of a message. */
  predicate Shows(a: Alert, m: Message) {
    a.state == m.state && a.details.severity == m.details.severity && a.details.health == m.details.health
  }

  ghost predicate ShowsLatest(p: Policy, h: seq<Message>, id: string, a: Alert) {
    HasId(h, id) && Shows(a, LatestMessage(p, h, a.key, id))
  }

  ghost predicate EpisodesOk(p: Policy, s: Sys) {
    && (forall id :: id in s.store ==> HasId(s.history, id))
    && (forall id :: id in s.store && !IsIem(s.store[id].key) && Open(s.store[id]) ==>
          ShowsLatest(p, s.history, id, s.store[id]))
    && (s.pending.Some? && s.pending.value.prev.Some? && !IsIem(s.pending.value.msg.key) ==>
          var Found(id, a) := s.pending.value.prev.value;
          ShowsLatest(p, s.history, id, a))
  }

  // ----- What user requests leave alone -----

  /** User requests never change an alert's sensor, state or details, never open it, and resolve only IEM alerts. */
  ghost predicate UserMove(a: Alert, b: Alert) {
    && a.key == b.key && a.state == b.state && a.details == b.details
    && (Open(b) ==> Open(a))
    && (!IsIem(a.key) ==> a.resolved == b.resolved)
    && (Numbered(a) ==> Numbered(b))
    && (!Open(a) ==> b == a.(updatedTime := b.updatedTime))
    && CommentsOf(a) <= CommentsOf(b)
  }

  ghost predicate UserMoves(s: Store, t: Store) {
    t.Keys == s.Keys && forall id :: id in s ==> UserMove(s[id], t[id])
  }

  lemma {:induction false} AcknowledgedMoves(a: Alert, value: bool, now: int)
    requires Open(a) || value
    ensures UserMove(a, Acknowledged(a, value, now))
  {
    assert CommentsOf(Acknowledged(a, value, now)) == CommentsOf(a);
  }

  lemma {:induction false} CommentedMoves(a: Alert, text: string, author: string, now: int)
    requires Open(a)
    ensures UserMove(a, Commented(a, text, author, now))
  {
  }

  lemma {:induction false} AcknowledgeAllMoves(s: Store, ids: seq<string>, now: int)
    ensures UserMoves(s, AcknowledgeAllIn(s, ids, now))
    decreases |ids|
  {
    if ids != [] && ids[0] in s {
      var t := s[ids[0] := Acknowledged(s[ids[0]], true, now)];
      AcknowledgedMoves(s[ids[0]], true, now);
      AcknowledgeAllMoves(t, ids[1..], now);
      var r := AcknowledgeAllIn(t, ids[1..], now);
      forall id | id in s
        ensures UserMove(s[id], r[id])
      {
        assert UserMove(s[id], t[id]) && UserMove(t[id], r[id]);
      }
    }
  }

  predicate IsUserEvent(e: Event) {
    e.Acknowledge? || e.AcknowledgeAll? || e.AddComment?
  }

  lemma {:induction false} UserEventMoves(p: Policy, s: Sys, e: Event)
    requires IsUserEvent(e)
    ensures Apply(p, s, e) == s.(store := Apply(p, s, e).store)
    ensures UserMoves(s.store, Apply(p, s, e).store)
  {
    match e
    case AcknowledgeAll(ids, now) =>
      AcknowledgeAllMoves(s.store, ids, now);
    case Acknowledge(id, value, now) =>
      if id in s.store && Open(s.store[id]) && value.Some? {
        AcknowledgedMoves(s.store[id], value.value, now);
      }
    case AddComment(id, text, author, now) =>
      if id in s.store && Open(s.store[id]) {
        CommentedMoves(s.store[id], text, author, now);
      }
    case _ =>
  }

  // ----- One step keeps each invariant -----

  lemma {:induction false} PendingOkStep(p: Policy, s: Sys, e: Event, t: Sys)
    requires PendingOk(s) && Step(p, s, e, t)
    ensures PendingOk(t)
  {
    if IsUserEvent(e) {
      UserEventMoves(p, s, e);
    }
  }

  lemma {:induction false} FlagsOkStep(p: Policy, s: Sys, e: Event, t: Sys)
    requires PendingOk(s) && FlagsOk(p, s) && Step(p, s, e, t)
    ensures FlagsOk(p, t)
  {
    if IsUserEvent(e) {
      UserEventMoves(p, s, e);
      forall id | id in t.store ensures ResolvedIffGood(p, t.store[id]) {
        assert UserMove(s.store[id], t.store[id]);
      }
    }
  }

  /** A write changes the comments of a stored alert only by putting a copy back. */
  lemma {:induction false} WrittenComments(p: Policy, s: Store, m: Message, prev: Option<Found>, now: int, id: string)
    requires id in s && id != m.id
    ensures var t := Written(p, s, m, prev, now);
            id in t &&
            CommentsOf(t[id]) ==
            CommentsOf(if prev.Some? && id == prev.value.id && m.state == prev.value.alert.state
                       then prev.value.alert else s[id])
  {
  }

  lemma {:induction false} CommentsOkStep(p: Policy, s: Sys, e: Event, t: Sys)
    requires PendingOk(s) && CommentsOk(s) && Step(p, s, e, t)
    ensures CommentsOk(t)
  {
    if IsUserEvent(e) {
      UserEventMoves(p, s, e);
      forall id | id in t.store ensures Numbered(t.store[id]) {
        assert UserMove(s.store[id], t.store[id]);
      }
    } else if e.Write? {
      var Pending(m, prev) := s.pending.value;
      forall id | id in t.store ensures Numbered(t.store[id]) {
        if id in s.store {
          WrittenComments(p, s.store, m, prev, e.now, id);
        }
      }
    }
  }

  ghost predicate LookupInv(s: Sys) {
    PendingOk(s) && OneOpen(s.store) && LookupStands(s)
  }

  lemma {:induction false} LookupInvStep(p: Policy, s: Sys, e: Event, t: Sys)
    requires LookupInv(s) && Step(p, s, e, t) && !e.LookupFailed?
    ensures LookupInv(t)
  {
    PendingOkStep(p, s, e, t);
    if IsUserEvent(e) {
      UserEventMoves(p, s, e);
      forall k, id | OpenFor(t.store, k, id) ensures OpenFor(s.store, k, id) {
        assert UserMove(s.store[id], t.store[id]);
      }
    } else if e.Write? {
      var Pending(m, prev) := s.pending.value;
      forall k, id | OpenFor(t.store, k, id)
        ensures OpenFor(s.store, k, id) || (k == m.key && id == if prev.None? then m.id else prev.value.id)
      {
      }
    }
  }

  lemma {:induction false} LatestMessageSnoc(p: Policy, h: seq<Message>, m: Message, k: Key, id: string)
    requires HasId(h, id) && m.id != id
    ensures HasId(h + [m], id)
    ensures var before := LatestMessage(p, h, k, id);
            LatestMessage(p, h + [m], k, id) ==
            if m.key == k && (p.Decisive(m.state) || m.state == before.state) then m else before
  {
    var i :| 0 <= i < |h| && h[i].id == id;
    assert (h + [m])[i].id == id;
    assert (h + [m])[..|h|] == h;
  }

  lemma {:induction false} EpisodesOkStep(p: Policy, s: Sys, e: Event, t: Sys)
    requires LookupInv(s) && FlagsOk(p, s) && EpisodesOk(p, s) && Step(p, s, e, t) && !e.LookupFailed?
    ensures EpisodesOk(p, t)
  {
    if IsUserEvent(e) {
      UserEventMoves(p, s, e);
      forall id | id in t.store
        ensures UserMove(s.store[id], t.store[id])
      {
      }
    } else if e.Write? {
      forall id | id in t.store
        ensures HasId(t.history, id)
        ensures !IsIem(t.store[id].key) && Open(t.store[id]) ==> ShowsLatest(p, t.history, id, t.store[id])
      {
        WriteKeepsEpisode(p, s, e, t, id);
      }
    }
  }

  lemma {:induction false} WriteKeepsEpisode(p: Policy, s: Sys, e: Event, t: Sys, id: string)
    requires LookupInv(s) && FlagsOk(p, s) && EpisodesOk(p, s) && Step(p, s, e, t) && e.Write?
    requires id in t.store
    ensures HasId(t.history, id)
    ensures !IsIem(t.store[id].key) && (Open(t.store[id]) || (id in s.store && Open(s.store[id]))) ==>
              ShowsLatest(p, t.history, id, t.store[id])
  {
    var Pending(m, prev) := s.pending.value;
    if id == m.id {
      assert t.history[|s.history|].id == id;
    } else {
      LatestMessageSnoc(p, s.history, m, t.store[id].key, id);
      var wasOpen := Open(s.store[id]);
      assert wasOpen ==> OpenFor(s.store, s.store[id].key, id);
      WrittenState(p, s.store, m, prev, e.now, id);
    }
  }

  /** What a write does to an alert that was there before. */
  lemma {:induction false} WrittenState(p: Policy, s: Store, m: Message, prev: Option<Found>, now: int, id: string)
    requires id in s && id != m.id
    requires prev.Some? ==> prev.value.id in s && prev.value.alert.key == m.key == s[prev.value.id].key
    requires prev.Some? ==> ResolvedIffGood(p, prev.value.alert)
    ensures var t := Written(p, s, m, prev, now);
            id in t && t[id].key == s[id].key &&
            (prev.None? || s[id].key != m.key ==> t[id] == s[id]) &&
            (prev.Some? && s[id].key == m.key ==>
               if m.state == prev.value.alert.state then
                 if id == prev.value.id then Shows(t[id], m) else t[id] == s[id]
               else if !Open(s[id]) || !p.Decisive(m.state) then t[id] == s[id]
               else !IsIem(m.key) ==> Shows(t[id], m))
  {
  }
}
