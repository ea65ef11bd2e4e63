/**
 * The alert life cycle: the stored alerts, what one sensor message or one user
 * request does to them, and the machine whose steps are the two phases of
 * message handling (look up, then write) and the user requests.
 */
module AlertModel {
  import opened Prelude

  const IEM := "iem"
  const NODE := "node"
  const HIGH_RISK_SEVERITY := {"critical", "CRITICAL", "error", "ERROR"}
  const SUPPORT_TEXT := "alerts_support_message"

  /** The good and the bad sensor states. A state may be neither. */
  datatype States = States(good: set<string>, bad: set<string>)
  {
    predicate Decisive(state: string) {
      state in good || state in bad
    }
  }

  type Policy = s: States | s.good !! s.bad witness States({}, {})

  /** The sensor that an alert is about. */
  datatype Key = Key(sensorInfo: string, moduleType: string)

  datatype Comment = Comment(id: nat, text: string, author: string, time: int)

  datatype Details = Details(moduleName: string, severity: string, health: string,
                             description: string, supportMessage: string)

  /** A sensor message in the manager's schema; resolved and acknowledged are always false in it. */
  datatype Message = Message(id: string, key: Key, state: string, createdTime: int, updatedTime: int,
                             details: Details)

  datatype Alert = Alert(key: Key, state: string, resolved: bool, acknowledged: bool,
                         comments: Option<seq<Comment>>, createdTime: int, updatedTime: int,
                         details: Details)

  type Store = map<string, Alert>

  /** The copy of a stored alert that a lookup hands out. */
  datatype Found = Found(id: string, alert: Alert)

  predicate Open(a: Alert) {
    !(a.resolved && a.acknowledged)
  }

  predicate IsIem(k: Key) {
    k.moduleType == IEM
  }

  function CommentsOf(a: Alert): seq<Comment> {
    if a.comments.None? then [] else a.comments.value
  }

  // ----- Sensor messages -----

  predicate IsNodeAlert(moduleName: string) {
    |moduleName| >= |NODE| && moduleName[..|NODE|] == NODE
    && (|moduleName| == |NODE| || moduleName[|NODE|] == ':')
  }

  predicate HighRisk(d: Details) {
    IsNodeAlert(d.moduleName) && d.severity in HIGH_RISK_SEVERITY
  }

  /** The message with the support text that bad, high-risk node alerts get. */
  function Annotate(p: Policy, m: Message): Message {
    if HighRisk(m.details) && m.state in p.bad
    then m.(details := m.details.(supportMessage := SUPPORT_TEXT))
    else m
  }

  function NewAlert(p: Policy, m: Message): Alert {
    Alert(m.key, m.state, m.state in p.good, false, None, m.createdTime, m.updatedTime, m.details)
  }

  /** Same state again: the stored alert is replaced, except for what the users own. */
  function Replacement(m: Message, prev: Alert, now: int): Alert {
    Alert(m.key, m.state, prev.resolved, prev.acknowledged, prev.comments, m.createdTime, now, m.details)
  }

  /** The fields that a state change writes. */
  datatype Params = Params(state: string, resolved: bool, severity: string, health: string,
                           supportMessage: string, updatedTime: int,
                           description: Option<string>, createdTime: Option<int>)

  function ParamsOf(p: Policy, m: Message, resolved: bool, now: int): Params {
    Params(m.state, resolved, m.details.severity, m.details.health,
           if HighRisk(m.details) then m.details.supportMessage else "",
           now,
           if m.state in p.bad || IsIem(m.key) then Some(m.details.description) else None,
           if IsIem(m.key) then Some(m.createdTime) else None)
  }

  function Updated(a: Alert, u: Params): Alert {
    a.(state := u.state, resolved := u.resolved, updatedTime := u.updatedTime,
       createdTime := if u.createdTime.None? then a.createdTime else u.createdTime.value,
       details := Details(a.details.moduleName, u.severity, u.health,
                          if u.description.None? then a.details.description else u.description.value,
                          u.supportMessage))
  }

  /** The update that the repository applies to every open alert of a sensor. */
  function UpdateOpen(s: Store, k: Key, u: Params): Store {
    map id | id in s :: if s[id].key == k && Open(s[id]) then Updated(s[id], u) else s[id]
  }

  /** What writing a message does to the store, given what its lookup found. */
  function Written(p: Policy, s: Store, m: Message, prev: Option<Found>, now: int): Store {
    match prev
    case None => s[m.id := NewAlert(p, m)]
    case Some(Found(id, was)) =>
      if m.state == was.state then
        s[id := Replacement(m, was, now)]
      else if m.state in p.good then
        if was.state in p.good then UpdateOpen(s, was.key, ParamsOf(p, m, was.resolved, now))
        else if !was.resolved then UpdateOpen(s, was.key, ParamsOf(p, m, true, now))
        else s
      else if m.state in p.bad then
        UpdateOpen(s, was.key, ParamsOf(p, m, was.state in p.bad && was.resolved, now))
      else
        s
  }

  // ----- User requests -----

  /** Acknowledging an IEM alert also resolves it. */
  function Acknowledged(a: Alert, value: bool, now: int): Alert {
    a.(acknowledged := value, updatedTime := now, resolved := a.resolved || IsIem(a.key))
  }

  function AcknowledgeIn(s: Store, id: string, value: Option<bool>, now: int): Store {
    if id !in s || !Open(s[id]) || value.None? then s
    else s[id := Acknowledged(s[id], value.value, now)]
  }

  /** A bulk request stops at the first unknown id and keeps what it did before. */
  function AcknowledgeAllIn(s: Store, ids: seq<string>, now: int): Store {
    if ids == [] || ids[0] !in s then s
    else AcknowledgeAllIn(s[ids[0] := Acknowledged(s[ids[0]], true, now)], ids[1..], now)
  }

  function Commented(a: Alert, text: string, author: string, now: int): Alert {
    a.(comments := Some(CommentsOf(a) + [Comment(|CommentsOf(a)| + 1, text, author, now)]), updatedTime := now)
  }

  function CommentIn(s: Store, id: string, text: string, author: string, now: int): Store {
    if id !in s || !Open(s[id]) then s else s[id := Commented(s[id], text, author, now)]
  }

  // ----- The machine -----

  /** A message that has been looked up and not yet written. */
  datatype Pending = Pending(msg: Message, prev: Option<Found>)

  datatype Sys = Sys(store: Store, history: seq<Message>, pending: Option<Pending>)

  datatype Event =
    | Lookup(m: Message, found: Option<string>)
    | LookupFailed(m: Message)
    | Write(now: int)
    | Acknowledge(id: string, value: Option<bool>, now: int)
    | AcknowledgeAll(ids: seq<string>, now: int)
    | AddComment(id: string, text: string, author: string, now: int)

  const INIT := Sys(map[], [], None)

  ghost predicate OpenFor(s: Store, k: Key, id: string) {
    id in s && s[id].key == k && Open(s[id])
  }

  /** What a successful query for an open alert of a sensor may answer. */
  ghost predicate IsLookup(s: Store, k: Key, found: Option<string>) {
    match found
    case None => forall id :: !OpenFor(s, k, id)
    case Some(id) => OpenFor(s, k, id)
  }

  predicate HasId(h: seq<Message>, id: string) {
    exists i :: 0 <= i < |h| && h[i].id == id
  }

  ghost predicate Fresh(s: Sys, id: string) {
    id !in s.store && !HasId(s.history, id)
  }

  ghost predicate Legal(s: Sys, e: Event) {
    match e
    case Lookup(m, found) => s.pending.None? && Fresh(s, m.id) && IsLookup(s.store, m.key, found)
    case LookupFailed(m) => s.pending.None? && Fresh(s, m.id)
    case Write(_) => s.pending.Some?
    case _ => true
  }

  function Snapshot(s: Store, found: Option<string>): Option<Found> {
    if found.Some? && found.value in s then Some(Found(found.value, s[found.value])) else None
  }

  function Apply(p: Policy, s: Sys, e: Event): Sys {
    match e
    case Lookup(m, found) => s.(pending := Some(Pending(Annotate(p, m), Snapshot(s.store, found))))
    case LookupFailed(m) => s.(pending := Some(Pending(Annotate(p, m), None)))
    case Write(now) =>
      if s.pending.None? then s
      else Sys(Written(p, s.store, s.pending.value.msg, s.pending.value.prev, now),
               s.history + [s.pending.value.msg], None)
    case Acknowledge(id, value, now) => s.(store := AcknowledgeIn(s.store, id, value, now))
    case AcknowledgeAll(ids, now) => s.(store := AcknowledgeAllIn(s.store, ids, now))
    case AddComment(id, text, author, now) => s.(store := CommentIn(s.store, id, text, author, now))
  }

  ghost predicate Step(p: Policy, s: Sys, e: Event, t: Sys) {
    Legal(s, e) && t == Apply(p, s, e)
  }

  /** A run: ss[0] is the empty system and es[i] leads from ss[i] to ss[i + 1]. */
  ghost predicate Behavior(p: Policy, ss: seq<Sys>, es: seq<Event>) {
    |ss| == |es| + 1 && ss[0] == INIT && forall i :: 0 <= i < |es| ==> Step(p, ss[i], es[i], ss[i + 1])
  }

  ghost predicate LookupsSucceed(es: seq<Event>) {
    forall i :: 0 <= i < |es| ==> !es[i].LookupFailed?
  }
}
