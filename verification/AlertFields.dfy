/**
 * Where every field of every stored alert comes from, in every run: a scan back over the
 * messages and requests of the run, IEM alerts, failed lookups and closed alerts included.
 */
module AlertFields {
  import opened Prelude
  import opened Text
  import opened AlertModel
  import opened AlertInvariants
  import opened AlertTheorems

  // ----- Messages -----

  lemma {:induction false} FirstPiece(s: string, c: char)
    ensures var p := Split(s, c)[0]; p <= s && c !in p && (|p| < |s| ==> s[|p|] == c)
  {
    if s != "" && s[0] != c {
      FirstPiece(s[1..], c);
    }
  }

  lemma {:induction false} NodeAlertIs(name: string)
    ensures IsNodeAlert(name) <==> Split(name, ':')[0] == "node"
  {
    var p := Split(name, ':')[0];
    FirstPiece(name, ':');
    assert |p| > 4 ==> p[4] in p;
  }

  /** The support text of a message: the standard one if it is bad and of high risk on a node, else its own. */
  ghost function SupportText(p: Policy, m: Message): string {
    if m.state in p.bad && OnNode(m) then "alerts_support_message" else m.details.supportMessage
  }

  predicate OnNode(m: Message) {
    Split(m.details.moduleName, ':')[0] == "node" && m.details.severity in {"critical", "CRITICAL", "error", "ERROR"}
  }

  /** The details of a message as they are stored when it is put in place as a whole. */
  ghost function DetailsOf(p: Policy, m: Message): Details {
    m.details.(supportMessage := SupportText(p, m))
  }

  lemma {:induction false} AnnotateIs(p: Policy, m: Message)
    ensures Annotate(p, m) == m.(details := DetailsOf(p, m))
    ensures HighRisk(m.details) <==> OnNode(m)
  {
    NodeAlertIs(m.details.moduleName);
  }

  // ----- The message in flight -----

  /** The lookup whose message has not been written yet, if there is one after the first i events. */
  function InFlight(es: seq<Event>, i: nat): (l: Option<nat>)
    requires i <= |es|
    ensures l.Some? ==> l.value < i && (es[l.value].Lookup? || es[l.value].LookupFailed?)
  {
    if i == 0 then None
    else
      match es[i - 1]
      case Lookup(_, _) => Some(i - 1)
      case LookupFailed(_) => Some(i - 1)
      case Write(_) => None
      case _ => InFlight(es, i - 1)
  }

  /** The id of the alert that a lookup found. */
  function FoundBy(e: Event): Option<string> {
    if e.Lookup? then e.found else None
  }

  /** A message is in flight exactly after its lookup, with a copy of the alert as it was then. */
  lemma {:induction false} PendingIs(p: Policy, ss: seq<Sys>, es: seq<Event>, i: nat)
    requires Behavior(p, ss, es) && i < |ss|
    ensures ss[i].pending.Some? <==> InFlight(es, i).Some?
    ensures InFlight(es, i).Some? ==>
              var l := InFlight(es, i).value;
              var Pending(m, prev) := ss[i].pending.value;
              m == es[l].m.(details := DetailsOf(p, es[l].m)) &&
              match FoundBy(es[l])
              case None => prev == None
              case Some(id) => id in ss[l].store && prev == Some(Found(id, ss[l].store[id]))
  {
    if i > 0 {
      assert Step(p, ss[i - 1], es[i - 1], ss[i]);
      PendingIs(p, ss, es, i - 1);
      if es[i - 1].Lookup? || es[i - 1].LookupFailed? {
        AnnotateIs(p, es[i - 1].m);
      } else if IsUserEvent(es[i - 1]) {
        UserEventMoves(p, ss[i - 1], es[i - 1]);
      }
    }
  }

  // ----- What an event does to one alert -----

  /**
   * The ways in which an event touches an alert: a message opens it, repeats its state or
   * changes its state, with the copy that the lookup took; a user acknowledges it or comments on it.
   */
  datatype Touch =
    | Nothing
    | Opening(m: Message)
    | Repeat(m: Message, copy: Alert, now: int)
    | Change(m: Message, copy: Alert, now: int)
    | Flagged(value: bool, now: int)
    | Noted(text: string, author: string, now: int)
  {
    predicate ByMessage() {
      Opening? || Repeat? || Change?
    }
  }

  /** A new good or bad state is taken over, except a good one over a copy that is resolved and not good. */
  predicate TakenOver(p: Policy, state: string, copy: Alert) {
    state in p.bad || (state in p.good && (copy.state in p.good || !copy.resolved))
  }

  ghost function WriteTouch(p: Policy, ss: seq<Sys>, es: seq<Event>, j: nat, id: string, now: int): Touch
    requires j < |es| < |ss|
  {
    if InFlight(es, j).None? then Nothing
    else
      var l := InFlight(es, j).value;
      var m := es[l].m;
      if FoundBy(es[l]).None? then if m.id == id then Opening(m) else Nothing
      else
        var found := FoundBy(es[l]).value;
        if found !in ss[l].store then Nothing
        else
          var copy := ss[l].store[found];
          if m.state == copy.state then if found == id then Repeat(m, copy, now) else Nothing
          else if OpenFor(ss[j].store, m.key, id) && TakenOver(p, m.state, copy) then Change(m, copy, now)
          else Nothing
  }

  ghost function TouchOf(p: Policy, ss: seq<Sys>, es: seq<Event>, j: nat, id: string): Touch
    requires j < |es| < |ss|
  {
    var s := ss[j].store;
    match es[j]
    case Write(now) => WriteTouch(p, ss, es, j, id, now)
    case Acknowledge(who, value, now) =>
      if who == id && id in s && Open(s[id]) && value.Some? then Flagged(value.value, now) else Nothing
    case AcknowledgeAll(ids, now) => if id in s && Reaches(s, ids, id) then Flagged(true, now) else Nothing
    case AddComment(who, text, author, now) =>
      if who == id && id in s && Open(s[id]) then Noted(text, author, now) else Nothing
    case _ => Nothing
  }

  /** The resolved flag that a change of state writes. */
  predicate ResolvedBy(p: Policy, state: string, copy: Alert) {
    if state in p.bad then copy.state in p.bad && copy.resolved
    else copy.state in p.good ==> copy.resolved
  }

  /** The alert b after a touch of the alert a; an opening needs no alert before it. */
  ghost predicate Touched(p: Policy, t: Touch, a: Option<Alert>, b: Alert) {
    match t
    case Nothing => a == Some(b)
    case Opening(m) =>
      b == Alert(m.key, m.state, m.state in p.good, false, None, m.createdTime, m.updatedTime, DetailsOf(p, m))
    case Repeat(m, copy, now) =>
      a.Some? && b == Alert(m.key, m.state, copy.resolved, copy.acknowledged, copy.comments,
                            m.createdTime, now, DetailsOf(p, m))
    case Change(m, copy, now) =>
      a.Some? && ChangedTo(p, m, copy, now, a.value, b)
    case Flagged(value, now) =>
      a.Some? && b == a.value.(acknowledged := value, updatedTime := now,
                               resolved := a.value.resolved || a.value.key.moduleType == "iem")
    case Noted(text, author, now) =>
      a.Some? &&
      var old_ := CommentsOf(a.value);
      b == a.value.(comments := Some(old_ + [Comment(|old_| + 1, text, author, now)]), updatedTime := now)
  }

  ghost predicate ChangedTo(p: Policy, m: Message, copy: Alert, now: int, a: Alert, b: Alert) {
    && b.key == a.key == m.key && b.state == m.state && b.resolved == ResolvedBy(p, m.state, copy)
    && b.acknowledged == a.acknowledged && b.comments == a.comments && b.updatedTime == now
    && b.createdTime == (if m.key.moduleType == "iem" then m.createdTime else a.createdTime)
    && b.details == Details(a.details.moduleName, m.details.severity, m.details.health,
                            if m.state in p.bad || m.key.moduleType == "iem" then m.details.description
                            else a.details.description,
                            if OnNode(m) then SupportText(p, m) else "")
  }

  function At(s: Store, id: string): Option<Alert> {
    if id in s then Some(s[id]) else None
  }

  lemma {:induction false} BulkFlags(s: Store, ids: seq<string>, now: int, id: string)
    requires id in s
    ensures var t := AcknowledgeAllIn(s, ids, now);
            id in t &&
            t[id] == if Reaches(s, ids, id)
                     then s[id].(acknowledged := true, updatedTime := now,
                                 resolved := s[id].resolved || s[id].key.moduleType == "iem")
                     else s[id]
    decreases |ids|
  {
    if ids != [] && ids[0] in s {
      var t := s[ids[0] := Acknowledged(s[ids[0]], true, now)];
      BulkFlags(t, ids[1..], now, id);
      ReachesSameKeys(s, t, ids[1..], id);
    }
  }

  lemma {:induction false} WriteTouches(p: Policy, ss: seq<Sys>, es: seq<Event>, j: nat, id: string)
    requires Behavior(p, ss, es) && j < |es| && es[j].Write? && id in ss[j + 1].store
    ensures Touched(p, TouchOf(p, ss, es, j, id), At(ss[j].store, id), ss[j + 1].store[id])
  {
    assert Step(p, ss[j], es[j], ss[j + 1]);
    AlwaysOk(p, ss, es, j);
    PendingIs(p, ss, es, j);
    var l := InFlight(es, j).value;
    AnnotateIs(p, es[l].m);
    WrittenAlert(p, ss[j].store, es[l].m, ss[j].pending.value.prev, es[j].now, id);
  }

  lemma {:induction false} WrittenAlert(p: Policy, s: Store, m: Message, prev: Option<Found>, now: int, id: string)
    requires prev.Some? ==> prev.value.id in s && prev.value.alert.key == m.key == s[prev.value.id].key
    requires id in Written(p, s, Annotate(p, m), prev, now)
    ensures Touched(p,
                    if prev.None? then if m.id == id then Opening(m) else Nothing
                    else if m.state == prev.value.alert.state then
                      if prev.value.id == id then Repeat(m, prev.value.alert, now) else Nothing
                    else if OpenFor(s, m.key, id) && TakenOver(p, m.state, prev.value.alert) then
                      Change(m, prev.value.alert, now)
                    else Nothing,
                    At(s, id), Written(p, s, Annotate(p, m), prev, now)[id])
  {
    AnnotateIs(p, m);
  }

  /** Every step of every run does to every alert what its touch says. */
  lemma {:induction false} StepTouches(p: Policy, ss: seq<Sys>, es: seq<Event>, j: nat, id: string)
    requires Behavior(p, ss, es) && j < |es| && id in ss[j + 1].store
    ensures Touched(p, TouchOf(p, ss, es, j, id), At(ss[j].store, id), ss[j + 1].store[id])
  {
    assert Step(p, ss[j], es[j], ss[j + 1]);
    match es[j]
    case Write(_) => WriteTouches(p, ss, es, j, id);
    case AcknowledgeAll(ids, now) =>
      AcknowledgeAllMoves(ss[j].store, ids, now);
      BulkFlags(ss[j].store, ids, now, id);
    case _ =>
  }

  /** An alert is stored exactly from the write of the message that opens it. */
  lemma {:induction false} StoredIffOpened(p: Policy, ss: seq<Sys>, es: seq<Event>, i: nat, id: string)
    requires Behavior(p, ss, es) && i < |ss|
    ensures id in ss[i].store <==> exists j :: 0 <= j < i && TouchOf(p, ss, es, j, id).Opening?
  {
    if i > 0 {
      StoredIffOpened(p, ss, es, i - 1, id);
      assert Step(p, ss[i - 1], es[i - 1], ss[i]);
      PendingIs(p, ss, es, i - 1);
      StaysStored(p, ss, es, i - 1, id);
      if id in ss[i].store {
        StepTouches(p, ss, es, i - 1, id);
      }
    }
  }

  lemma {:induction false} StaysStored(p: Policy, ss: seq<Sys>, es: seq<Event>, j: nat, id: string)
    requires Behavior(p, ss, es) && j < |es|
    ensures id in ss[j].store || TouchOf(p, ss, es, j, id).Opening? ==> id in ss[j + 1].store
  {
    assert Step(p, ss[j], es[j], ss[j + 1]);
    PendingIs(p, ss, es, j);
    if IsUserEvent(es[j]) {
      UserEventMoves(p, ss[j], es[j]);
    }
  }

  // ----- Fields over whole runs -----

  datatype Aspect = Created | Module | Description | State | UpdateTime

  /** The touches that decide a field: every message that puts the alert in place, and some others. */
  predicate Decides(p: Policy, aspect: Aspect, t: Touch) {
    match t
    case Nothing => false
    case Opening(_) => true
    case Repeat(_, _, _) => true
    case Change(m, _, _) =>
      (match aspect
       case Created => m.key.moduleType == "iem"
       case Module => false
       case Description => m.state in p.bad || m.key.moduleType == "iem"
       case State => true
       case UpdateTime => true)
    case _ => aspect == UpdateTime
  }

  /** The latest of the first i events that decides the field, or nothing. */
  ghost function Latest(p: Policy, ss: seq<Sys>, es: seq<Event>, i: nat, id: string, aspect: Aspect): (t: Touch)
    requires i <= |es| < |ss|
    ensures t != Nothing ==> Decides(p, aspect, t)
  {
    if i == 0 then Nothing
    else
      var t := TouchOf(p, ss, es, i - 1, id);
      if Decides(p, aspect, t) then t else Latest(p, ss, es, i - 1, id, aspect)
  }

  /** The alert shows, in one of its fields, what the message of a touch carries. */
  ghost predicate Carries(p: Policy, aspect: Aspect, t: Touch, a: Alert)
    requires t.ByMessage()
  {
    match aspect
    case Created => a.createdTime == t.m.createdTime
    case Module => a.details.moduleName == t.m.details.moduleName
    case Description => a.details.description == t.m.details.description
    case State =>
      && Shows(a, t.m)
      && a.details.supportMessage == (if t.Change? && !OnNode(t.m) then "" else SupportText(p, t.m))
    case UpdateTime => a.updatedTime == if t.Opening? then t.m.updatedTime else t.now
  }

  ghost predicate ComesFrom(p: Policy, aspect: Aspect, t: Touch, a: Alert) {
    if t.ByMessage() then Carries(p, aspect, t, a)
    else t != Nothing && aspect == UpdateTime && a.updatedTime == t.now
  }

  lemma {:induction false} TouchDecides(p: Policy, aspect: Aspect, t: Touch, a: Option<Alert>, b: Alert)
    requires Touched(p, t, a, b) && Decides(p, aspect, t)
    ensures ComesFrom(p, aspect, t, b)
  {
  }

  lemma {:induction false} TouchLeaves(p: Policy, aspect: Aspect, t: Touch, a: Option<Alert>, b: Alert, from_: Touch)
    requires Touched(p, t, a, b) && !Decides(p, aspect, t)
    requires a.Some? ==> ComesFrom(p, aspect, from_, a.value)
    ensures ComesFrom(p, aspect, from_, b)
  {
  }

  /**
   * In every state of every run, each field of each stored alert is that of the latest message that
   * decides it: the creation time and the module of the message that opened the alert or repeated its
   * state last, the description of the latest opening, repeated or bad one, state, severity, health and
   * support text of the latest one taken over; for IEM alerts, every message taken over decides all but
   * the module. The update time is the opening message's own, or the time of the latest touch after it.
   */
  lemma {:induction false} FieldsComeFrom(p: Policy, ss: seq<Sys>, es: seq<Event>, i: nat, id: string, aspect: Aspect)
    requires Behavior(p, ss, es) && i < |ss| && id in ss[i].store
    ensures ComesFrom(p, aspect, Latest(p, ss, es, i, id, aspect), ss[i].store[id])
  {
    if i > 0 {
      var t := TouchOf(p, ss, es, i - 1, id);
      StepTouches(p, ss, es, i - 1, id);
      if Decides(p, aspect, t) {
        TouchDecides(p, aspect, t, At(ss[i - 1].store, id), ss[i].store[id]);
      } else {
        FieldsComeFrom(p, ss, es, i - 1, id, aspect);
        TouchLeaves(p, aspect, t, At(ss[i - 1].store, id), ss[i].store[id], Latest(p, ss, es, i - 1, id, aspect));
      }
    }
  }

  /** The lookup that the message of a repeat comes from. */
  lemma {:induction false} RepeatsCopy(p: Policy, ss: seq<Sys>, es: seq<Event>, j: nat, id: string)
    requires j < |es| < |ss| && TouchOf(p, ss, es, j, id).Repeat?
    ensures InFlight(es, j).Some?
    ensures var l := InFlight(es, j).value;
            id in ss[l].store && TouchOf(p, ss, es, j, id).copy == ss[l].store[id]
  {
  }

  lemma {:induction false} TouchedFlag(p: Policy, t: Touch, a: Option<Alert>, b: Alert)
    requires Touched(p, t, a, b)
    ensures match t
            case Opening(_) => !b.acknowledged
            case Repeat(_, copy, _) => b.acknowledged == copy.acknowledged
            case Flagged(value, _) => b.acknowledged == value
            case _ => a.Some? && b.acknowledged == a.value.acknowledged
  {
  }

  lemma {:induction false} TouchedComments(p: Policy, t: Touch, a: Option<Alert>, b: Alert)
    requires Touched(p, t, a, b)
    ensures match t
            case Opening(_) => CommentsOf(b) == []
            case Repeat(_, copy, _) => CommentsOf(b) == CommentsOf(copy)
            case Noted(text, author, now) =>
              a.Some? && CommentsOf(b) == CommentsOf(a.value) + [Comment(|CommentsOf(a.value)| + 1, text, author, now)]
            case _ => a.Some? && CommentsOf(b) == CommentsOf(a.value)
  {
  }

  /** The value that was asked for last; a repeated message puts back what its lookup saw. */
  ghost function AcknowledgedFrom(p: Policy, ss: seq<Sys>, es: seq<Event>, i: nat, id: string): bool
    requires i <= |es| < |ss|
    decreases i
  {
    if i == 0 then false
    else
      match TouchOf(p, ss, es, i - 1, id)
      case Opening(_) => false
      case Repeat(_, _, _) =>
        RepeatsCopy(p, ss, es, i - 1, id);
        AcknowledgedFrom(p, ss, es, InFlight(es, i - 1).value, id)
      case Flagged(value, _) => value
      case _ => AcknowledgedFrom(p, ss, es, i - 1, id)
  }

  lemma {:induction false} AcknowledgedIsAsked(p: Policy, ss: seq<Sys>, es: seq<Event>, i: nat, id: string)
    requires Behavior(p, ss, es) && i < |ss| && id in ss[i].store
    ensures ss[i].store[id].acknowledged == AcknowledgedFrom(p, ss, es, i, id)
    decreases i
  {
    if i > 0 {
      StepTouches(p, ss, es, i - 1, id);
      var t := TouchOf(p, ss, es, i - 1, id);
      TouchedFlag(p, t, At(ss[i - 1].store, id), ss[i].store[id]);
      if t.Repeat? {
        RepeatsCopy(p, ss, es, i - 1, id);
        AcknowledgedIsAsked(p, ss, es, InFlight(es, i - 1).value, id);
      } else if !t.Opening? && !t.Flagged? {
        AcknowledgedIsAsked(p, ss, es, i - 1, id);
      }
    }
  }

  /** The comments that were added, numbered from one; a repeated message puts back those that its lookup saw. */
  ghost function CommentsFrom(p: Policy, ss: seq<Sys>, es: seq<Event>, i: nat, id: string): seq<Comment>
    requires i <= |es| < |ss|
    decreases i
  {
    if i == 0 then []
    else
      match TouchOf(p, ss, es, i - 1, id)
      case Opening(_) => []
      case Repeat(_, _, _) =>
        RepeatsCopy(p, ss, es, i - 1, id);
        CommentsFrom(p, ss, es, InFlight(es, i - 1).value, id)
      case Noted(text, author, now) =>
        var before := CommentsFrom(p, ss, es, i - 1, id);
        before + [Comment(|before| + 1, text, author, now)]
      case _ => CommentsFrom(p, ss, es, i - 1, id)
  }

  lemma {:induction false} CommentsNext(p: Policy, ss: seq<Sys>, es: seq<Event>, j: nat, id: string)
    requires Behavior(p, ss, es) && j < |es| && id in ss[j + 1].store
    requires id in ss[j].store ==> CommentsOf(ss[j].store[id]) == CommentsFrom(p, ss, es, j, id)
    requires InFlight(es, j).Some? && id in ss[InFlight(es, j).value].store ==>
               var l := InFlight(es, j).value;
               CommentsOf(ss[l].store[id]) == CommentsFrom(p, ss, es, l, id)
    ensures CommentsOf(ss[j + 1].store[id]) == CommentsFrom(p, ss, es, j + 1, id)
  {
    var t := TouchOf(p, ss, es, j, id);
    StepTouches(p, ss, es, j, id);
    TouchedComments(p, t, At(ss[j].store, id), ss[j + 1].store[id]);
    if t.Repeat? {
      RepeatsCopy(p, ss, es, j, id);
    }
  }

  lemma {:induction false} CommentsAreAdded(p: Policy, ss: seq<Sys>, es: seq<Event>, i: nat, id: string)
    requires Behavior(p, ss, es) && i < |ss| && id in ss[i].store
    ensures CommentsOf(ss[i].store[id]) == CommentsFrom(p, ss, es, i, id)
    decreases i
  {
    if i > 0 {
      var l := InFlight(es, i - 1);
      if l.Some? && id in ss[l.value].store {
        CommentsAreAdded(p, ss, es, l.value, id);
      }
      if id in ss[i - 1].store {
        CommentsAreAdded(p, ss, es, i - 1, id);
      }
      CommentsNext(p, ss, es, i - 1, id);
    }
  }
}
