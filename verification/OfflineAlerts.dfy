/** The heartbeat sweep: what one pass does, and how many open offline alerts a server can
    have over a whole run. */
module OfflineAlerts {
  import opened Prelude
  import opened Monitor
  import AlertEngine

  // ---------------------------------------------------------------- one sweep

  /** Some agent among the first n belongs to the server and is stale. */
  ghost predicate StaleBelow(db: Db, now: int, server: nat, n: nat)
    requires n <= |db.agents|
  {
    exists i :: 0 <= i < n && db.agents[i].server == server && IsStale(db.agents[i], now)
  }

  /** The sweep raises an alert for the server. */
  ghost predicate Raises(db: Db, now: int, server: nat, n: nat)
    requires n <= |db.agents|
  {
    StaleBelow(db, now, server, n) && server < |db.servers| && !HasOpenOffline(db.alerts, server)
  }

  lemma OpenAfterAppend(alerts: seq<Alert>, a: Alert, server: nat)
    ensures HasOpenOffline(alerts + [a], server) <==> HasOpenOffline(alerts, server) || IsOpenOffline(a, server)
  {
    var all := alerts + [a];
    if i :| 0 <= i < |alerts| && IsOpenOffline(alerts[i], server) { assert IsOpenOffline(all[i], server); }
    if IsOpenOffline(a, server) { assert IsOpenOffline(all[|alerts|], server); }
  }

  lemma StaleBelowNext(db: Db, now: int, server: nat, n: nat)
    requires 0 < n <= |db.agents|
    ensures StaleBelow(db, now, server, n) <==>
      StaleBelow(db, now, server, n - 1) || (db.agents[n - 1].server == server && IsStale(db.agents[n - 1], now))
  {
  }

  /** The sweep opens an alert exactly for the servers that have a stale agent and no open
      offline alert yet. Only those servers become "offline": a stale server whose alert is
      still open keeps whatever status it has. */
  lemma {:induction false} SweepEffect(db: Db, now: int, server: nat, n: nat)
    requires server < |db.servers| && n <= |db.agents|
    ensures |SweepTo(db, now, n).servers| == |db.servers|
    ensures SweepTo(db, now, n).servers[server] ==
      if Raises(db, now, server, n) then db.servers[server].(status := "offline") else db.servers[server]
    ensures HasOpenOffline(SweepTo(db, now, n).alerts, server) <==>
      HasOpenOffline(db.alerts, server) || StaleBelow(db, now, server, n)
  {
    if n > 0 {
      SweepEffect(db, now, server, n - 1);
      StaleBelowNext(db, now, server, n);
      var mid := SweepTo(db, now, n - 1);
      var agent := db.agents[n - 1];
      hide StaleBelow, HasOpenOffline;
      if RaisesOffline(mid, agent, now) {
        OpenAfterAppend(mid.alerts, OfflineAlert(agent, now), server);
      }
    }
  }

  lemma {:induction false} SweepTouchesNoServerTwice(db: Db, now: int, n: nat)
    requires n <= |db.agents| && forall i :: 0 <= i < |db.agents| ==> !RaisesOffline(db, db.agents[i], now)
    ensures SweepTo(db, now, n) == db
  {
    if n > 0 { SweepTouchesNoServerTwice(db, now, n - 1); }
  }

  /** Repeating a sweep at the same instant changes nothing. */
  lemma SweepIdempotent(db: Db, now: int)
    ensures SweepAll(SweepAll(db, now), now) == SweepAll(db, now)
  {
    var r := SweepAll(db, now);
    var n := |db.agents|;
    forall i | 0 <= i < |r.agents| ensures !RaisesOffline(r, r.agents[i], now) {
      var agent := r.agents[i];
      if agent.server < |db.servers| {
        SweepEffect(db, now, agent.server, n);
        if IsStale(agent, now) { assert StaleBelow(db, now, agent.server, n); }
      } else {
        SweepKeepsServerCount(db, now, n);
      }
    }
    SweepTouchesNoServerTwice(r, now, |r.agents|);
  }

  lemma {:induction false} SweepKeepsServerCount(db: Db, now: int, n: nat)
    requires n <= |db.agents|
    ensures |SweepTo(db, now, n).servers| == |db.servers|
  {
    if n > 0 { SweepKeepsServerCount(db, now, n - 1); }
  }

  /** A sweep leaves an open offline alert for every server with a stale agent. */
  lemma StaleIsReported(db: Db, now: int, a: nat)
    requires a < |db.agents| && IsStale(db.agents[a], now) && db.agents[a].server < |db.servers|
    ensures HasOpenOffline(SweepAll(db, now).alerts, db.agents[a].server)
  {
    SweepEffect(db, now, db.agents[a].server, |db.agents|);
    assert StaleBelow(db, now, db.agents[a].server, |db.agents|);
  }

  /** A server with a stale agent is "offline" after a sweep exactly when it had no open offline
      alert before, or was "offline" already. */
  lemma OfflineAfterSweepIff(db: Db, now: int, server: nat)
    requires server < |db.servers| && StaleBelow(db, now, server, |db.agents|)
    ensures |SweepAll(db, now).servers| == |db.servers|
    ensures SweepAll(db, now).servers[server].status == "offline" <==>
      !HasOpenOffline(db.alerts, server) || db.servers[server].status == "offline"
  {
    SweepEffect(db, now, server, |db.agents|);
  }

  /** Some alert for the server is in `after` and not in `before`. */
  predicate AddsAlertFor(before: seq<Alert>, after: seq<Alert>, server: nat)
  {
    exists x :: |before| <= x < |after| && after[x].server == Some(server)
  }

  /** A sweep creates no alert for a server none of whose agents is stale. */
  lemma {:induction false} FreshIsNotReported(db: Db, now: int, server: nat, n: nat)
    requires n <= |db.agents|
    requires forall i :: 0 <= i < |db.agents| && db.agents[i].server == server ==> !IsStale(db.agents[i], now)
    ensures |db.alerts| <= |SweepTo(db, now, n).alerts|
    ensures !AddsAlertFor(db.alerts, SweepTo(db, now, n).alerts, server)
  {
    if n > 0 {
      FreshIsNotReported(db, now, server, n - 1);
    }
  }

  // ---------------------------------------------------------------- at most one open alert

  ghost predicate OneOpen(alerts: seq<Alert>, server: nat)
  {
    forall i, j :: 0 <= i < j < |alerts| ==> !(IsOpenOffline(alerts[i], server) && IsOpenOffline(alerts[j], server))
  }

  /** The request re-opens an offline alert of a server that has another one open. */
  ghost predicate Reopens(db: Db, e: Event, server: nat)
  {
    && e.SetAlertStatus? && e.status == "open"
    && e.alert < |db.alerts| && db.alerts[e.alert].org == e.org
    && db.alerts[e.alert].ruleType == "agent_offline" && db.alerts[e.alert].server == Some(server)
    && db.alerts[e.alert].status != "open"
    && HasOpenOffline(db.alerts, server)
  }

  lemma AppendKeepsOneOpen(alerts: seq<Alert>, more: seq<Alert>, server: nat)
    requires OneOpen(alerts, server)
    requires forall i :: 0 <= i < |more| ==> !IsOpenOffline(more[i], server)
    ensures OneOpen(alerts + more, server)
  {
  }

  lemma {:induction false} SweepOneOpen(db: Db, now: int, server: nat, n: nat)
    requires n <= |db.agents| && OneOpen(db.alerts, server)
    ensures OneOpen(SweepTo(db, now, n).alerts, server)
  {
    if n > 0 {
      SweepOneOpen(db, now, server, n - 1);
      var mid, agent := SweepTo(db, now, n - 1), db.agents[n - 1];
      if RaisesOffline(mid, agent, now) && agent.server == server {
        forall i | 0 <= i < |mid.alerts| ensures !IsOpenOffline(mid.alerts[i], server) {}
      }
    }
  }

  lemma EvaluateOneOpen(db: Db, now: int, answers: map<nat, seq<Metric>>, server: nat)
    requires OneOpen(db.alerts, server)
    ensures OneOpen(EvaluateAll(db, now, answers).alerts, server)
  {
    AlertEngine.PassAdds(db, now, answers, db.nextRule);
    var r := EvaluateAll(db, now, answers);
    assert r.alerts == db.alerts + r.alerts[|db.alerts|..];
    AppendKeepsOneOpen(db.alerts, r.alerts[|db.alerts|..], server);
  }

  lemma StatusOneOpen(db: Db, now: int, e: Event, server: nat)
    requires OneOpen(db.alerts, server) && e.SetAlertStatus?
    ensures OneOpen(Step(db, now, e).alerts, server) <==> !Reopens(db, e, server)
  {
    var r := UpdateAlertStatus(db, now, e.org, e.user, e.alert, e.status);
    if Reopens(db, e, server) {
      var k :| 0 <= k < |db.alerts| && IsOpenOffline(db.alerts[k], server);
      assert IsOpenOffline(r.alerts[k], server) && IsOpenOffline(r.alerts[e.alert], server);
    } else if e.alert < |db.alerts| && db.alerts[e.alert].org == e.org {
      forall i | 0 <= i < |db.alerts| && i != e.alert && IsOpenOffline(r.alerts[i], server)
        ensures !IsOpenOffline(r.alerts[e.alert], server)
      {
        assert IsOpenOffline(db.alerts[i], server);
      }
    }
  }

  lemma DeleteOneOpen(db: Db, now: int, e: Event, server: nat)
    requires OneOpen(db.alerts, server) && e.DeleteRule?
    ensures OneOpen(Step(db, now, e).alerts, server)
  {
  }

  /** From a state with at most one open offline alert for the server, a request or pass leads
      to a state with two exactly when it re-opens a settled one beside an open one. */
  lemma OneOpenUnlessReopened(db: Db, now: int, e: Event, server: nat)
    requires OneOpen(db.alerts, server)
    ensures OneOpen(Step(db, now, e).alerts, server) <==> !Reopens(db, e, server)
  {
    AlertFrame(db, now, e);
    if e.Sweep? {
      SweepOneOpen(db, now, server, |db.agents|);
    } else if e.Evaluate? {
      EvaluateOneOpen(db, now, e.answers, server);
    } else if e.SetAlertStatus? {
      StatusOneOpen(db, now, e, server);
    } else if e.DeleteRule? {
      DeleteOneOpen(db, now, e, server);
    } else {
      hide Step;
    }
  }

  /** While no status update sets an alert back to "open", every reachable state has at most
      one open offline alert per server. */
  lemma {:induction false} ReachableOneOpen(run: seq<Timed>, n: nat, server: nat)
    requires n <= |run|
    requires forall k :: 0 <= k < n ==> !(run[k].event.SetAlertStatus? && run[k].event.status == "open")
    ensures OneOpen(StateAt(run, n).alerts, server)
  {
    hide Step;
    if n > 0 {
      ReachableOneOpen(run, n - 1, server);
      OneOpenUnlessReopened(StateAt(run, n - 1), run[n - 1].now, run[n - 1].event, server);
    }
  }

  // ---------------------------------------------------------------- acknowledging

  /** Setting an alert to "acknowledged" leaves it with an acknowledgement stamp exactly when it
      was open or had one already. */
  lemma AcknowledgedIff(db: Db, now: int, org: nat, user: nat, alert: nat)
    requires alert < |db.alerts| && db.alerts[alert].org == org
    ensures var after := Step(db, now, SetAlertStatus(org, user, alert, "acknowledged")).alerts;
      && |after| == |db.alerts| && after[alert].status == "acknowledged"
      && (after[alert].acknowledged.Some? <==> db.alerts[alert].status == "open" || db.alerts[alert].acknowledged.Some?)
  {
  }
}
