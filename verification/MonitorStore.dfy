/** The request handlers and workers of the monitoring core, updating the tables in place.
    Each is proved to do to the tables what `Monitor` says one step does. */
module MonitorStore {
  import opened Prelude
  import opened Monitor

  // ---------------------------------------------------------------- deleting organization by organization

  function DropMetrics(metrics: seq<Metric>, org: nat, cutoff: int): seq<Metric>
  {
    if metrics == [] then []
    else
      var rest := DropMetrics(metrics[1..], org, cutoff);
      if metrics[0].org == org && metrics[0].timestamp < cutoff then rest else [metrics[0]] + rest
  }

  function DropLogs(logs: seq<LogEntry>, org: nat, cutoff: int): seq<LogEntry>
  {
    if logs == [] then []
    else
      var rest := DropLogs(logs[1..], org, cutoff);
      if logs[0].org == org && logs[0].timestamp < cutoff then rest else [logs[0]] + rest
  }

  /** The tables' organizations restricted to those a cleanup has visited. */
  function Visited(db: Db, done: set<nat>): Db
  {
    db.(orgs := map o | o in db.orgs && o in done :: db.orgs[o])
  }

  lemma {:induction false} DropExtends(db: Db, now: int, done: set<nat>, org: nat, metrics: seq<Metric>)
    requires org in db.orgs && org !in done && db.orgs[org].isActive
    ensures KeptMetrics(Visited(db, done + {org}), now, metrics) ==
      DropMetrics(KeptMetrics(Visited(db, done), now, metrics), org,
                  now - PlanOf(db.plans, db.orgs[org]).metricDays * DAY)
  {
    if metrics != [] {
      DropExtends(db, now, done, org, metrics[1..]);
      var rest := KeptMetrics(Visited(db, done), now, metrics[1..]);
      assert ([metrics[0]] + rest)[1..] == rest;
    }
  }

  lemma {:induction false} DropLogsExtends(db: Db, now: int, done: set<nat>, org: nat, logs: seq<LogEntry>)
    requires org in db.orgs && org !in done && db.orgs[org].isActive
    ensures KeptLogs(Visited(db, done + {org}), now, logs) ==
      DropLogs(KeptLogs(Visited(db, done), now, logs), org, now - PlanOf(db.plans, db.orgs[org]).logDays * DAY)
  {
    if logs != [] {
      DropLogsExtends(db, now, done, org, logs[1..]);
      var rest := KeptLogs(Visited(db, done), now, logs[1..]);
      assert ([logs[0]] + rest)[1..] == rest;
    }
  }

  lemma {:induction false} InactiveKeepsAll(db: Db, now: int, done: set<nat>, org: nat, metrics: seq<Metric>,
                                            logs: seq<LogEntry>)
    requires org in db.orgs && !db.orgs[org].isActive
    ensures KeptMetrics(Visited(db, done + {org}), now, metrics) == KeptMetrics(Visited(db, done), now, metrics)
    ensures KeptLogs(Visited(db, done + {org}), now, logs) == KeptLogs(Visited(db, done), now, logs)
    decreases |metrics| + |logs|
  {
    if metrics != [] { InactiveKeepsAll(db, now, done, org, metrics[1..], logs); }
    if logs != [] { InactiveKeepsAll(db, now, done, org, metrics, logs[1..]); }
  }

  lemma {:induction false} NoneVisited(db: Db, now: int, metrics: seq<Metric>, logs: seq<LogEntry>)
    ensures KeptMetrics(Visited(db, {}), now, metrics) == metrics && KeptLogs(Visited(db, {}), now, logs) == logs
    decreases |metrics| + |logs|
  {
    if metrics != [] { NoneVisited(db, now, metrics[1..], logs); }
    if logs != [] { NoneVisited(db, now, metrics, logs[1..]); }
  }

  lemma AllVisited(db: Db, done: set<nat>)
    requires done == db.orgs.Keys
    ensures Visited(db, done) == db
  {
    assert Visited(db, done).orgs == db.orgs;
  }

  /** What visiting one more organization deletes. */
  lemma VisitOrganization(db: Db, now: int, done: set<nat>, org: nat)
    requires org in db.orgs && org !in done
    ensures KeptMetrics(Visited(db, done + {org}), now, db.metrics) ==
      if db.orgs[org].isActive
      then DropMetrics(KeptMetrics(Visited(db, done), now, db.metrics), org,
                       now - PlanOf(db.plans, db.orgs[org]).metricDays * DAY)
      else KeptMetrics(Visited(db, done), now, db.metrics)
    ensures KeptLogs(Visited(db, done + {org}), now, db.logs) ==
      if db.orgs[org].isActive
      then DropLogs(KeptLogs(Visited(db, done), now, db.logs), org, now - PlanOf(db.plans, db.orgs[org]).logDays * DAY)
      else KeptLogs(Visited(db, done), now, db.logs)
  {
    if db.orgs[org].isActive {
      DropExtends(db, now, done, org, db.metrics);
      DropLogsExtends(db, now, done, org, db.logs);
    } else {
      InactiveKeepsAll(db, now, done, org, db.metrics, db.logs);
    }
  }

  // ---------------------------------------------------------------- the tables

  /** The token belongs to an active agent, and its server row exists. */
  predicate AgentWithServer(db: Db, token: nat)
  {
    var a := AgentByToken(db.agents, token);
    a.Some? && db.agents[a.value].server < |db.servers|
  }

  class Store {
    var servers: seq<Server>
    var agents: seq<Agent>
    var regTokens: seq<RegToken>
    var metrics: seq<Metric>
    var logs: seq<LogEntry>
    var rules: map<nat, Rule>
    var nextRule: nat
    var alerts: seq<Alert>
    var incidents: seq<Incident>
    var links: set<(nat, nat)>
    var orgs: map<nat, Org>
    var plans: map<nat, Plan>
    ghost var issued: set<nat>

    ghost function Tables(): Db
      reads this
    {
      Db(servers, agents, regTokens, metrics, logs, rules, nextRule, alerts, incidents, links, orgs, plans, issued)
    }

    constructor ()
      ensures Tables() == EMPTY_DB
    {
      servers, agents, regTokens, metrics, logs := [], [], [], [], [];
      rules, nextRule, alerts, incidents, links := map[], 0, [], [], {};
      orgs, plans, issued := map[], map[], {};
    }

    /** `agentToken` is the token the server generates for the agent. */
    method RegisterAgent(now: int, regToken: nat, hostname: string, agentToken: nat) returns (ok: bool)
      modifies this
      ensures Tables() == Monitor.RegisterAgent(old(Tables()), now, regToken, hostname, agentToken)
      ensures ok <==> Tables() != old(Tables())
    {
      hide UnusedRegToken, ServerByName, AgentOfServer;
      var t := UnusedRegToken(regTokens, regToken);
      if t.None? || regTokens[t.value].expiresAt < now {
        return false;
      }
      var reg := regTokens[t.value];
      var found := ServerByName(servers, reg.org, hostname);
      var sid;
      if found.None? {
        sid := |servers|;
        servers := servers + [Server(reg.org, hostname, reg.environment, "online", None)];
      } else {
        sid := found.value;
      }
      servers := servers[sid := servers[sid].(status := "online", lastSeen := Some(now))];
      var own := AgentOfServer(agents, sid);
      if own.Some? {
        agents := agents[own.value := agents[own.value].(token := agentToken, lastHeartbeat := Some(now))];
      } else {
        agents := agents + [Agent(sid, reg.org, agentToken, true, Some(now))];
      }
      issued := issued + {agentToken};
      regTokens := regTokens[t.value := reg.(isUsed := true, usedBy := Some(sid))];
      ok := true;
    }

    method SeeOnline(now: int, server: nat)
      modifies this
      ensures Tables() == SeenOnline(old(Tables()), now, server)
    {
      if server < |servers| {
        servers := servers[server := servers[server].(status := "online", lastSeen := Some(now))];
      }
    }

    method AcceptHeartbeat(now: int, token: nat) returns (ok: bool)
      modifies this
      ensures Tables() == Monitor.AcceptHeartbeat(old(Tables()), now, token)
      ensures ok == AgentByToken(old(agents), token).Some?
    {
      var a := AgentByToken(agents, token);
      if a.None? {
        return false;
      }
      agents := agents[a.value := agents[a.value].(lastHeartbeat := Some(now))];
      SeeOnline(now, agents[a.value].server);
      ok := true;
    }

    method IngestMetrics(now: int, token: nat, points: seq<Point>) returns (ok: bool)
      modifies this
      ensures Tables() == AddMetrics(old(Tables()), now, token, points)
      ensures ok == AgentWithServer(old(Tables()), token)
    {
      var a := AgentByToken(agents, token);
      if a.None? || agents[a.value].server >= |servers| {
        return false;
      }
      var sid := agents[a.value].server;
      var rows: seq<Metric> := [];
      for i := 0 to |points|
        invariant |rows| == i && Tables() == old(Tables())
        invariant forall j :: 0 <= j < i ==>
          rows[j] == Metric(servers[sid].org, Some(sid), points[j].name, points[j].value,
                            Stamp(points[j].timestamp, now))
      {
        var m := points[i];
        rows := rows + [Metric(servers[sid].org, Some(sid), m.name, m.value, Stamp(m.timestamp, now))];
      }
      assert rows == MetricRows(servers[sid].org, Some(sid), points, now);
      metrics := metrics + rows;
      SeeOnline(now, sid);
      ok := true;
    }

    method IngestLogs(now: int, token: nat, lines: seq<Line>) returns (ok: bool)
      modifies this
      ensures Tables() == AddLogs(old(Tables()), now, token, lines)
      ensures ok == AgentWithServer(old(Tables()), token)
    {
      var a := AgentByToken(agents, token);
      if a.None? || agents[a.value].server >= |servers| {
        return false;
      }
      var sid := agents[a.value].server;
      var rows: seq<LogEntry> := [];
      for i := 0 to |lines|
        invariant |rows| == i && Tables() == old(Tables())
        invariant forall j :: 0 <= j < i ==>
          rows[j] == LogEntry(servers[sid].org, Some(sid), lines[j].message, Stamp(lines[j].timestamp, now))
      {
        rows := rows + [LogEntry(servers[sid].org, Some(sid), lines[i].message, Stamp(lines[i].timestamp, now))];
      }
      assert rows == LogRows(servers[sid].org, Some(sid), lines, now);
      logs := logs + rows;
      ok := true;
    }

    method CheckHeartbeats(now: int)
      modifies this
      ensures Tables() == SweepAll(old(Tables()), now)
    {
      var cutoff := now - HEARTBEAT_TIMEOUT;
      for i := 0 to |agents|
        invariant agents == old(agents)
        invariant Tables() == SweepTo(old(Tables()), now, i)
      {
        var agent := agents[i];
        var stale := agent.isActive && agent.lastHeartbeat.Some? && agent.lastHeartbeat.value < cutoff;
        if stale && agent.server < |servers| {
          var existing := HasOpenOffline(alerts, agent.server);
          if !existing {
            servers := servers[agent.server := servers[agent.server].(status := "offline")];
            alerts := alerts + [OfflineAlert(agent, now)];
          }
        }
      }
    }

    /** `answer` is what the database returns, in its order, for the rule's query before DISTINCT ON. */
    method EvaluateRule(now: int, ruleId: nat, answer: seq<Metric>)
      requires ruleId in rules && rules[ruleId].isActive
      modifies this
      ensures Tables() == Monitor.EvaluateRule(old(Tables()), now, ruleId, answer)
    {
      hide InCooldown, Triggers;
      var rule := rules[ruleId];
      var recent := InCooldown(alerts, ruleId, CooldownStart(rule, now));
      if recent || MetricName(rule.ruleType).None? {
        return;
      }
      var latest := LatestRows(answer);
      for i := 0 to |latest|
        invariant Tables() == old(Tables()).(alerts := old(alerts) + RuleAlerts(rule, ruleId, latest[..i], now))
      {
        assert latest[..i + 1][..i] == latest[..i];
        if Triggers(rule, latest[i].value) {
          alerts := alerts + [RuleAlert(rule, ruleId, latest[i], now)];
        }
      }
      assert latest[..|latest|] == latest;
    }

    method EvaluateAllRules(now: int, answers: map<nat, seq<Metric>>)
      modifies this
      ensures Tables() == EvaluateAll(old(Tables()), now, answers)
    {
      for ruleId := 0 to nextRule
        invariant Tables() == EvaluateTo(old(Tables()), now, answers, ruleId)
      {
        if ruleId in rules && rules[ruleId].isActive {
          EvaluateRule(now, ruleId, Answer(answers, ruleId));
        }
      }
    }

    /** One organization's deletes. */
    method CleanupOrganization(now: int, org: nat)
      requires org in orgs
      modifies this`metrics, this`logs
      ensures metrics == if orgs[org].isActive
        then DropMetrics(old(metrics), org, now - PlanOf(plans, orgs[org]).metricDays * DAY) else old(metrics)
      ensures logs == if orgs[org].isActive
        then DropLogs(old(logs), org, now - PlanOf(plans, orgs[org]).logDays * DAY) else old(logs)
    {
      if orgs[org].isActive {
        var metricDays, logDays := DEFAULT_METRIC_DAYS, DEFAULT_LOG_DAYS;
        if orgs[org].plan.Some? && orgs[org].plan.value in plans {
          metricDays, logDays := plans[orgs[org].plan.value].metricDays, plans[orgs[org].plan.value].logDays;
        }
        metrics := DropMetrics(metrics, org, now - metricDays * DAY);
        logs := DropLogs(logs, org, now - logDays * DAY);
      }
    }

    method CleanupOldMetrics(now: int)
      modifies this`metrics, this`logs
      ensures Tables() == CleanupAll(old(Tables()), now)
    {
      hide KeptMetrics, KeptLogs, DropMetrics, DropLogs, Visited;
      ghost var before := Tables();
      ghost var done: set<nat> := {};
      var todo := orgs.Keys;
      NoneVisited(before, now, metrics, logs);
      while todo != {}
        invariant done !! todo && done + todo == orgs.Keys
        invariant metrics == KeptMetrics(Visited(before, done), now, before.metrics)
        invariant logs == KeptLogs(Visited(before, done), now, before.logs)
        decreases |todo|
      {
        var org :| org in todo;
        VisitOrganization(before, now, done, org);
        CleanupOrganization(now, org);
        done, todo := done + {org}, todo - {org};
      }
      AllVisited(before, done);
    }

    method UpdateAlertStatus(now: int, org: nat, user: nat, alert: nat, status: string) returns (ok: bool)
      modifies this
      ensures Tables() == Monitor.UpdateAlertStatus(old(Tables()), now, org, user, alert, status)
      ensures ok == (alert < |old(alerts)| && old(alerts)[alert].org == org)
    {
      if alert >= |alerts| || alerts[alert].org != org {
        return false;
      }
      if status == "acknowledged" && alerts[alert].status == "open" {
        alerts := alerts[alert := alerts[alert].(acknowledged := Some((now, user)))];
      } else if status == "resolved" {
        alerts := alerts[alert := alerts[alert].(resolved := Some((now, user)))];
      }
      alerts := alerts[alert := alerts[alert].(status := status)];
      ok := true;
    }

    method CreateIncident(org: nat, alertIds: seq<nat>) returns (incident: nat)
      modifies this
      ensures Tables() == OpenIncident(old(Tables()), org, alertIds) && incident == |old(incidents)|
    {
      incident := |incidents|;
      incidents := incidents + [Incident(org, "open", None)];
      for i := 0 to |alertIds|
        invariant Tables() == old(Tables()).(incidents := incidents, links := links)
        invariant incidents == old(incidents) + [Incident(org, "open", None)]
        invariant links == old(links) +
          set a | a in alertIds[..i] && a < |alerts| && alerts[a].org == org :: (incident, a)
      {
        var a := alertIds[i];
        assert alertIds[..i + 1] == alertIds[..i] + [a];
        if a < |alerts| && alerts[a].org == org {
          links := links + {(incident, a)};
        }
      }
      assert alertIds[..|alertIds|] == alertIds;
    }

    method UpdateIncident(now: int, org: nat, incident: nat, status: Option<string>) returns (ok: bool)
      modifies this
      ensures Tables() == ReviseIncident(old(Tables()), now, org, incident, status)
      ensures ok == (incident < |old(incidents)| && old(incidents)[incident].org == org)
    {
      if incident >= |incidents| || incidents[incident].org != org {
        return false;
      }
      if status.Some? {
        incidents := incidents[incident := incidents[incident].(status := status.value)];
      }
      if status == Some("resolved") && incidents[incident].resolvedAt.None? {
        incidents := incidents[incident := incidents[incident].(resolvedAt := Some(now))];
      }
      ok := true;
    }

    method LinkAlert(org: nat, incident: nat, alert: nat) returns (ok: bool)
      modifies this
      ensures Tables() == Link(old(Tables()), org, incident, alert)
      ensures ok == (incident < |incidents| && incidents[incident].org == org && alert < |alerts| &&
                     alerts[alert].org == org)
    {
      if incident >= |incidents| || incidents[incident].org != org || alert >= |alerts| || alerts[alert].org != org {
        return false;
      }
      links := links + {(incident, alert)};
      ok := true;
    }
  }
}
