/**
 * The services that change the alert store: the monitor that consumes sensor
 * messages and the application service that carries out user requests. Every
 * method is proved to take exactly the steps of the alert machine.
 */
module AlertServices {
  import opened Prelude
  import opened AlertModel

  class AlertRepository {
    var alerts: Store
    var history: seq<Message>

    constructor ()
      ensures View() == INIT
    {
      alerts, history := map[], [];
    }

    ghost function View(): Sys
      reads this
    {
      Sys(alerts, history, None)
    }

    method RetrieveBySensorInfo(k: Key) returns (r: Option<Found>)
      ensures r.Some? ==> r.value.id in alerts && r.value.alert == alerts[r.value.id]
      ensures IsLookup(alerts, k, if r.Some? then Some(r.value.id) else None)
    {
      var matching := set id | id in alerts && alerts[id].key == k && Open(alerts[id]);
      if matching == {} {
        assert forall id :: OpenFor(alerts, k, id) ==> id in matching;
        return None;
      }
      var id :| id in matching;
      return Some(Found(id, alerts[id]));
    }

    /** Every open alert of the sensor takes the new fields, and every other alert stays as it is. */
    method UpdateBySensorInfo(k: Key, u: Params)
      modifies `alerts
      ensures alerts.Keys == old(alerts).Keys
      ensures forall id :: OpenFor(old(alerts), k, id) ==> alerts[id] == Updated(old(alerts)[id], u)
      ensures forall id :: id in alerts && !OpenFor(old(alerts), k, id) ==> alerts[id] == old(alerts)[id]
    {
      var left := alerts.Keys;
      while left != {}
        invariant left <= alerts.Keys == old(alerts).Keys
        invariant forall id :: id in left ==> alerts[id] == old(alerts)[id]
        invariant forall id :: id in alerts && id !in left ==>
                    alerts[id] == if OpenFor(old(alerts), k, id) then Updated(old(alerts)[id], u) else old(alerts)[id]
        decreases left
      {
        var id :| id in left;
        if alerts[id].key == k && (!alerts[id].acknowledged || !alerts[id].resolved) {
          alerts := alerts[id := Updated(alerts[id], u)];
        }
        left := left - {id};
      }
    }

    method Put(id: string, a: Alert)
      modifies `alerts
      ensures alerts == old(alerts)[id := a]
    {
      alerts := alerts[id := a];
    }
  }

  lemma {:induction false} IsUpdateOpen(s: Store, t: Store, k: Key, u: Params)
    requires t.Keys == s.Keys
    requires forall id :: OpenFor(s, k, id) ==> t[id] == Updated(s[id], u)
    requires forall id :: id in t && !OpenFor(s, k, id) ==> t[id] == s[id]
    ensures t == UpdateOpen(s, k, u)
  {
    forall id | id in t ensures t[id] == UpdateOpen(s, k, u)[id] {
      assert OpenFor(s, k, id) <==> s[id].key == k && Open(s[id]);
    }
  }

  class AlertMonitor {
    const repo: AlertRepository
    const policy: Policy
    const retries: nat
    var updateBadAlert: bool

    constructor (repo: AlertRepository, policy: Policy, retries: nat)
      ensures this.repo == repo && this.policy == policy && this.retries == retries
    {
      this.repo, this.policy, this.retries := repo, policy, retries;
      updateBadAlert := false;
    }

    /** Tries the lookup until the store answers; without an answer it reports no previous alert. */
    method GetPreviousAlert(k: Key, reachable: nat -> bool) returns (r: Option<Found>, answered: bool)
      ensures answered <==> exists n :: 0 <= n < retries && reachable(n)
      ensures r.Some? ==> answered && r.value.id in repo.alerts && r.value.alert == repo.alerts[r.value.id]
      ensures answered ==> IsLookup(repo.alerts, k, if r.Some? then Some(r.value.id) else None)
    {
      var count := 0;
      while count < retries
        invariant 0 <= count <= retries
        invariant forall n :: 0 <= n < count ==> !reachable(n)
      {
        if reachable(count) {
          r := repo.RetrieveBySensorInfo(k);
          return r, true;
        }
        count := count + 1;
      }
      return None, false;
    }

    /**
     * Handles one message. With no user request in between, the store goes through the
     * lookup step and then the write step of the machine.
     */
    method Consume(message: Message, now: int, reachable: nat -> bool) returns (ghost e: Event)
      modifies this`updateBadAlert, repo
      ensures (e.Lookup? || e.LookupFailed?) && e.m == message
      ensures e.Lookup? <==> exists n :: 0 <= n < retries && reachable(n)
      ensures e.Lookup? ==> IsLookup(old(repo.alerts), message.key, e.found)
      ensures repo.View() == Apply(policy, Apply(policy, old(repo.View()), e), Write(now))
      ensures e.LookupFailed? || e.found.None? ==>
                message.id in repo.alerts &&
                var a := repo.alerts[message.id];
                a.key == message.key && a.state == message.state && a.createdTime == message.createdTime &&
                a.updatedTime == message.updatedTime && (a.resolved <==> message.state in policy.good) && !a.acknowledged
    {
      var m := Annotate(policy, message);
      var prev, answered := GetPreviousAlert(m.key, reachable);
      e := if answered then Lookup(message, if prev.Some? then Some(prev.value.id) else None)
           else LookupFailed(message);
      updateBadAlert := false;
      if prev.None? {
        var alert := Alert(m.key, m.state, false, false, None, m.createdTime, m.updatedTime, m.details);
        if alert.state in policy.good {
          alert := alert.(resolved := true);
        }
        repo.Put(m.id, alert);
      } else {
        var _ := ResolveAlert(m, prev.value, now);
      }
      repo.history := repo.history + [m];
    }

    method ResolveAlert(m: Message, prev: Found, now: int) returns (alertUpdated: bool)
      requires prev.alert.key == m.key && !updateBadAlert
      modifies this`updateBadAlert, repo`alerts
      ensures repo.alerts == Written(policy, old(repo.alerts), m, Some(prev), now)
      ensures alertUpdated <==> m.state != prev.alert.state && policy.Decisive(m.state)
    {
      alertUpdated := false;
      if m.state != prev.alert.state {
        if m.state in policy.good {
          if prev.alert.state in policy.good {
            UpdateAlert(m, prev.alert, false, now);
          } else {
            Resolve(m, prev.alert, now);
          }
          alertUpdated := true;
        }
        if m.state in policy.bad {
          updateBadAlert := true;
          if prev.alert.state in policy.bad {
            UpdateAlert(m, prev.alert, false, now);
          } else {
            UpdateAlert(m, prev.alert, true, now);
          }
          alertUpdated := true;
        }
      } else {
        UpdateDuplicateAlert(m, prev, now);
      }
    }

    method UpdateAlert(m: Message, prev: Alert, updateResolve: bool, now: int)
      requires prev.key == m.key
      requires updateBadAlert <==> m.state in policy.bad
      modifies repo`alerts
      ensures repo.alerts ==
              UpdateOpen(old(repo.alerts), prev.key, ParamsOf(policy, m, !updateResolve && prev.resolved, now))
    {
      var support := "";
      if IsNodeAlert(m.details.moduleName) && m.details.severity in HIGH_RISK_SEVERITY {
        support := m.details.supportMessage;
      }
      var resolved := false;
      if !updateResolve {
        resolved := prev.resolved;
      }
      var description, createdTime := None, None;
      if updateBadAlert {
        description := Some(m.details.description);
      }
      if m.key.moduleType == IEM {
        createdTime := Some(m.createdTime);
        description := Some(m.details.description);
      }
      repo.UpdateBySensorInfo(prev.key, Params(m.state, resolved, m.details.severity, m.details.health,
                                               support, now, description, createdTime));
      assert Params(m.state, resolved, m.details.severity, m.details.health, support, now, description, createdTime)
          == ParamsOf(policy, m, !updateResolve && prev.resolved, now);
      IsUpdateOpen(old(repo.alerts), repo.alerts, prev.key, ParamsOf(policy, m, !updateResolve && prev.resolved, now));
    }

    method Resolve(m: Message, prev: Alert, now: int)
      requires prev.key == m.key
      requires updateBadAlert <==> m.state in policy.bad
      modifies repo`alerts
      ensures repo.alerts == if prev.resolved then old(repo.alerts)
                             else UpdateOpen(old(repo.alerts), prev.key, ParamsOf(policy, m, true, now))
    {
      if !prev.resolved {
        UpdateAlert(m, prev.(resolved := true), false, now);
      }
    }

    method UpdateDuplicateAlert(m: Message, prev: Found, now: int)
      modifies repo`alerts
      ensures repo.alerts == old(repo.alerts)[prev.id := Replacement(m, prev.alert, now)]
    {
      var alert := Alert(m.key, m.state, false, false, None, m.createdTime, m.updatedTime, m.details);
      alert := alert.(resolved := prev.alert.resolved);
      alert := alert.(acknowledged := prev.alert.acknowledged);
      alert := alert.(comments := prev.alert.comments);
      alert := alert.(updatedTime := now);
      repo.Put(prev.id, alert);
    }
  }

  class AlertsAppService {
    const repo: AlertRepository

    constructor (repo: AlertRepository)
      ensures this.repo == repo
    {
      this.repo := repo;
    }

    method UpdateAlert(id: string, acknowledged: Option<bool>, now: int) returns (r: Result<Alert>)
      modifies repo`alerts
      ensures repo.alerts == AcknowledgeIn(old(repo.alerts), id, acknowledged, now)
      ensures r == if id !in old(repo.alerts) then Err(NotFound)
                   else if !Open(old(repo.alerts)[id]) then Err(InvalidRequest)
                   else Ok(repo.alerts[id])
    {
      if id !in repo.alerts {
        return Err(NotFound);
      }
      var alert := repo.alerts[id];
      if alert.resolved && alert.acknowledged {
        return Err(InvalidRequest);
      }
      if acknowledged.Some? {
        alert := alert.(acknowledged := acknowledged.value);
        alert := alert.(updatedTime := now);
        if alert.key.moduleType == IEM {
          alert := alert.(resolved := true);
        }
      }
      repo.Put(id, alert);
      return Ok(alert);
    }

    method AddCommentToAlert(id: string, author: string, text: string, now: int) returns (r: Result<Comment>)
      modifies repo`alerts
      ensures repo.alerts == CommentIn(old(repo.alerts), id, text, author, now)
      ensures id !in old(repo.alerts) ==> r == Err(NotFound)
      ensures id in old(repo.alerts) && !Open(old(repo.alerts)[id]) ==> r == Err(InvalidRequest)
      ensures id in old(repo.alerts) && Open(old(repo.alerts)[id]) ==>
                r == Ok(Comment(|CommentsOf(old(repo.alerts)[id])| + 1, text, author, now))
    {
      if id !in repo.alerts {
        return Err(NotFound);
      }
      var alert := repo.alerts[id];
      if alert.resolved && alert.acknowledged {
        return Err(InvalidRequest);
      }
      if alert.comments.None? {
        alert := alert.(comments := Some([]));
      }
      alert := alert.(updatedTime := now);
      var comment := Comment(|alert.comments.value| + 1, text, author, now);
      alert := alert.(comments := Some(alert.comments.value + [comment]));
      repo.Put(id, alert);
      return Ok(comment);
    }

    method UpdateAllAlerts(ids: seq<string>, now: int) returns (r: Result<seq<Alert>>)
      modifies repo`alerts
      ensures repo.alerts == AcknowledgeAllIn(old(repo.alerts), ids, now)
      ensures r.Ok? <==> forall i :: 0 <= i < |ids| ==> ids[i] in old(repo.alerts)
      ensures r.Err? ==> r == Err(NotFound)
      ensures r.Ok? ==> |r.value| == |ids| && forall i :: 0 <= i < |ids| ==> r.value[i].acknowledged
    {
      var alerts: seq<Alert> := [];
      var n := 0;
      while n < |ids|
        invariant 0 <= n <= |ids| && |alerts| == n
        invariant repo.alerts.Keys == old(repo.alerts.Keys)
        invariant forall i :: 0 <= i < n ==> ids[i] in repo.alerts && alerts[i].acknowledged
        invariant AcknowledgeAllIn(old(repo.alerts), ids, now) == AcknowledgeAllIn(repo.alerts, ids[n..], now)
      {
        if ids[n] !in repo.alerts {
          return Err(NotFound);
        }
        var alert := repo.alerts[ids[n]];
        alert := alert.(acknowledged := true);
        alert := alert.(updatedTime := now);
        if alert.key.moduleType == IEM {
          alert := alert.(resolved := true);
        }
        assert alert == Acknowledged(repo.alerts[ids[n]], true, now);
        repo.Put(ids[n], alert);
        alerts := alerts + [alert];
        assert ids[n..][1..] == ids[n + 1..];
        n := n + 1;
      }
      return Ok(alerts);
    }
  }
}
