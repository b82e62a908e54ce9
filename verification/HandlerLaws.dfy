/** What the requests of agents and operators, and a cleanup, leave behind, read off the tables
    before and after. */
module HandlerLaws {
  import opened Prelude
  import opened Monitor
  import Registration
  import Retention

  // ---------------------------------------------------------------- registration

  /** A registration token is accepted exactly when it is known, unused and not past its expiry.
      Then the server of that name in the token's organization, or a new one with the token's
      environment, is online; it has one agent, with the new token, heard of now; and the token
      is used by it. Nothing else changes. */
  lemma RegistersIff(db: Db, now: int, regToken: nat, hostname: string, agentToken: nat, t: nat)
    returns (s: nat, a: nat)
    requires Registration.Sound(db) && t < |db.regTokens| && db.regTokens[t].token == regToken
    ensures var r, reg := Step(db, now, Register(regToken, hostname, agentToken)), db.regTokens[t];
      if reg.isUsed || reg.expiresAt < now then r == db
      else
        && s < |r.servers| && a < |r.agents|
        && r == db.(servers := r.servers, agents := r.agents, issued := db.issued + {agentToken},
                    regTokens := db.regTokens[t := reg.(isUsed := true, usedBy := Some(s))])
        && (if s < |db.servers|
            then db.servers[s].org == reg.org && db.servers[s].hostname == hostname &&
                 r.servers == db.servers[s := db.servers[s].(status := "online", lastSeen := Some(now))]
            else (forall i :: 0 <= i < |db.servers| ==>
                    db.servers[i].org != reg.org || db.servers[i].hostname != hostname) &&
                 r.servers == db.servers + [Server(reg.org, hostname, reg.environment, "online", Some(now))])
        && (if a < |db.agents|
            then db.agents[a].server == s &&
                 r.agents == db.agents[a := db.agents[a].(token := agentToken, lastHeartbeat := Some(now))]
            else (forall i :: 0 <= i < |db.agents| ==> db.agents[i].server != s) &&
                 r.agents == db.agents + [Agent(s, reg.org, agentToken, true, Some(now))])
  {
    var reg := db.regTokens[t];
    s := TargetServer(db, reg.org, hostname);
    var own := AgentOfServer(db.agents, s);
    a := if own.Some? then own.value else |db.agents|;
    var found := UnusedRegToken(db.regTokens, regToken);
    if !reg.isUsed { assert found == Some(t); }
    if found.Some? { assert found.value == t; }
  }

  lemma UnknownRegToken(db: Db, now: int, regToken: nat, hostname: string, agentToken: nat)
    requires forall t :: 0 <= t < |db.regTokens| ==> db.regTokens[t].token != regToken
    ensures Step(db, now, Register(regToken, hostname, agentToken)) == db
  {
  }

  // ---------------------------------------------------------------- what agents send

  /** The token is that of agent a, and of no other active agent. */
  predicate IsTokenOf(agents: seq<Agent>, token: nat, a: nat)
  {
    && a < |agents| && agents[a].isActive && agents[a].token == token
    && forall b :: 0 <= b < |agents| && b != a ==> !agents[b].isActive || agents[b].token != token
  }

  lemma TokenResolves(agents: seq<Agent>, token: nat, a: nat)
    requires IsTokenOf(agents, token, a)
    ensures AgentByToken(agents, token) == Some(a)
  {
  }

  /** What an agent sends with a token that no active agent has changes nothing. */
  lemma UnknownAgentToken(db: Db, now: int, token: nat, points: seq<Point>, lines: seq<Line>)
    requires forall a :: 0 <= a < |db.agents| ==> !db.agents[a].isActive || db.agents[a].token != token
    ensures Step(db, now, Heartbeat(token)) == db
    ensures Step(db, now, IngestMetrics(token, points)) == db
    ensures Step(db, now, IngestLogs(token, lines)) == db
  {
  }

  /** A heartbeat stamps the agent with the clock and brings its server online. */
  lemma HeartbeatStamps(db: Db, now: int, token: nat, a: nat)
    requires IsTokenOf(db.agents, token, a) && db.agents[a].server < |db.servers|
    ensures var s := db.agents[a].server;
      Step(db, now, Heartbeat(token)) ==
      db.(agents := db.agents[a := db.agents[a].(lastHeartbeat := Some(now))],
          servers := db.servers[s := db.servers[s].(status := "online", lastSeen := Some(now))])
  {
    TokenResolves(db.agents, token, a);
  }

  /** A row is the point, for that server and organization, with the point's own time stamp or
      the clock. */
  predicate IsSampleOf(m: Metric, org: nat, server: nat, p: Point, now: int)
  {
    && m.org == org && m.server == Some(server) && m.name == p.name && m.value == p.value
    && m.timestamp == (if p.timestamp.Some? then p.timestamp.value else now)
  }

  predicate IsLineOf(l: LogEntry, org: nat, server: nat, line: Line, now: int)
  {
    && l.org == org && l.server == Some(server) && l.message == line.message
    && l.timestamp == (if line.timestamp.Some? then line.timestamp.value else now)
  }

  /** Samples are appended in order, each for the agent's server and the organization of that
      server; the server is online. */
  lemma SamplesAreStored(db: Db, now: int, token: nat, points: seq<Point>, a: nat) returns (rows: seq<Metric>)
    requires IsTokenOf(db.agents, token, a) && db.agents[a].server < |db.servers|
    ensures var s := db.agents[a].server;
      && Step(db, now, IngestMetrics(token, points)) ==
           db.(metrics := db.metrics + rows,
               servers := db.servers[s := db.servers[s].(status := "online", lastSeen := Some(now))])
      && |rows| == |points|
      && forall k :: 0 <= k < |points| ==> IsSampleOf(rows[k], db.servers[s].org, s, points[k], now)
  {
    TokenResolves(db.agents, token, a);
    hide AgentByToken;
    rows := MetricRows(db.servers[db.agents[a].server].org, Some(db.agents[a].server), points, now);
  }

  /** The same for log lines, which leave the server alone. */
  lemma LinesAreStored(db: Db, now: int, token: nat, lines: seq<Line>, a: nat) returns (rows: seq<LogEntry>)
    requires IsTokenOf(db.agents, token, a) && db.agents[a].server < |db.servers|
    ensures var s := db.agents[a].server;
      && Step(db, now, IngestLogs(token, lines)) == db.(logs := db.logs + rows) && |rows| == |lines|
      && forall k :: 0 <= k < |lines| ==> IsLineOf(rows[k], db.servers[s].org, s, lines[k], now)
  {
    TokenResolves(db.agents, token, a);
    hide AgentByToken;
    rows := LogRows(db.servers[db.agents[a].server].org, Some(db.agents[a].server), lines, now);
  }

  // ---------------------------------------------------------------- cleanup

  /** The days an organization keeps samples and log lines: those of its plan, else 90 and 30. */
  predicate Keeps(db: Db, org: nat, metricDays: int, logDays: int)
  {
    org in db.orgs &&
    if db.orgs[org].plan.Some? && db.orgs[org].plan.value in db.plans
    then Plan(metricDays, logDays) == db.plans[db.orgs[org].plan.value]
    else metricDays == 90 && logDays == 30
  }

  lemma ExpiredIs(db: Db, now: int, m: Metric, l: LogEntry, days: int, logDays: int)
    requires (m.org in db.orgs ==> Keeps(db, m.org, days, logDays)) && l.org == m.org
    ensures MetricExpired(db, now, m) <==>
      m.org in db.orgs && db.orgs[m.org].isActive && m.timestamp < now - days * (24 * 3600 * 1_000_000)
    ensures LogExpired(db, now, l) <==>
      l.org in db.orgs && db.orgs[l.org].isActive && l.timestamp < now - logDays * (24 * 3600 * 1_000_000)
  {
  }

  /** A cleanup deletes a sample or a log line, with all its copies, exactly when its organization
      is active and it is older than that organization's days. */
  lemma CleanupKeeps(db: Db, now: int, m: Metric, l: LogEntry, days: int, logDays: int)
    requires m.org in db.orgs ==> Keeps(db, m.org, days, logDays)
    requires l.org == m.org
    ensures var r := Step(db, now, Cleanup);
      && r == db.(metrics := r.metrics, logs := r.logs)
      && multiset(r.metrics)[m] ==
           (if m.org in db.orgs && db.orgs[m.org].isActive && m.timestamp < now - days * (24 * 3600 * 1_000_000)
            then 0 else multiset(db.metrics)[m])
      && multiset(r.logs)[l] ==
           (if l.org in db.orgs && db.orgs[l.org].isActive && l.timestamp < now - logDays * (24 * 3600 * 1_000_000)
            then 0 else multiset(db.logs)[l])
  {
    ExpiredIs(db, now, m, l, days, logDays);
    hide KeptMetrics, KeptLogs, MetricExpired, LogExpired, Keeps;
    Retention.CleanupDeletesExactly(db, now, db.metrics, m);
    Retention.CleanupDeletesLogsExactly(db, now, db.logs, l);
  }

  // ---------------------------------------------------------------- alerts, rules, incidents

  /** An alert of the caller's organization takes any status. It is stamped as acknowledged when it
      was open and becomes "acknowledged", and as resolved when it becomes "resolved". */
  lemma StatusIsSet(db: Db, now: int, org: nat, user: nat, alert: nat, status: string)
    requires alert < |db.alerts|
    ensures var r, was := Step(db, now, SetAlertStatus(org, user, alert, status)), db.alerts[alert];
      if was.org != org then r == db
      else
        && r == db.(alerts := db.alerts[alert := r.alerts[alert]]) && |r.alerts| == |db.alerts|
        && r.alerts[alert] == was.(status := status, acknowledged := r.alerts[alert].acknowledged,
                                   resolved := r.alerts[alert].resolved)
        && r.alerts[alert].acknowledged ==
             (if was.status == "open" && status == "acknowledged" then Some((now, user)) else was.acknowledged)
        && r.alerts[alert].resolved == (if status == "resolved" then Some((now, user)) else was.resolved)
  {
  }

  /** An update sets exactly the fields it names, of a rule of the caller's organization. */
  lemma RuleIsRevised(db: Db, now: int, org: nat, ruleId: nat, u: RuleUpdate)
    requires ruleId in db.rules
    ensures var r, was := Step(db, now, UpdateRule(org, ruleId, u)), db.rules[ruleId];
      if was.org != org then r == db
      else
        && r.rules.Keys == db.rules.Keys && r == db.(rules := db.rules[ruleId := r.rules[ruleId]])
        && var rule := r.rules[ruleId];
        && rule == was.(severity := rule.severity, threshold := rule.threshold, isActive := rule.isActive,
                        cooldownMinutes := rule.cooldownMinutes)
        && u == RuleUpdate(if u.severity.Some? then Some(rule.severity) else None,
                           if u.threshold.Some? then Some(rule.threshold) else None,
                           if u.isActive.Some? then Some(rule.isActive) else None,
                           if u.cooldownMinutes.Some? then Some(rule.cooldownMinutes) else None)
        && (u.severity.None? ==> rule.severity == was.severity)
        && (u.threshold.None? ==> rule.threshold == was.threshold)
        && (u.isActive.None? ==> rule.isActive == was.isActive)
        && (u.cooldownMinutes.None? ==> rule.cooldownMinutes == was.cooldownMinutes)
  {
  }

  /** Deleting a rule takes it out of the table and out of the alerts that name it. */
  lemma RuleIsRemoved(db: Db, now: int, org: nat, ruleId: nat)
    requires ruleId in db.rules
    ensures var r := Step(db, now, DeleteRule(org, ruleId));
      if db.rules[ruleId].org != org then r == db
      else
        && r == db.(rules := db.rules - {ruleId}, alerts := r.alerts) && |r.alerts| == |db.alerts|
        && forall x :: 0 <= x < |db.alerts| ==>
             r.alerts[x] ==
             (if db.alerts[x].rule == Some(ruleId) then db.alerts[x].(rule := None) else db.alerts[x])
  {
  }

  /** A new incident is open and linked to exactly the listed alerts of its organization. */
  lemma IncidentIsOpened(db: Db, now: int, org: nat, alertIds: seq<nat>, i: nat, a: nat)
    ensures var r := Step(db, now, CreateIncident(org, alertIds));
      && r == db.(incidents := db.incidents + [Incident(org, "open", None)], links := r.links)
      && ((i, a) in r.links <==>
            (i, a) in db.links || (i == |db.incidents| && a in alertIds && a < |db.alerts| && db.alerts[a].org == org))
  {
  }

  /** An incident of the caller's organization takes any status; the first time it is resolved it
      is stamped. */
  lemma IncidentIsRevised(db: Db, now: int, org: nat, incident: nat, status: string)
    requires incident < |db.incidents|
    ensures var r, was := Step(db, now, UpdateIncident(org, incident, Some(status))), db.incidents[incident];
      if was.org != org then r == db
      else r == db.(incidents := db.incidents[incident :=
             Incident(org, status, if was.resolvedAt.None? && status == "resolved" then Some(now) else was.resolvedAt)])
    ensures Step(db, now, UpdateIncident(org, incident, None)) == db
  {
    assert db.incidents[incident := db.incidents[incident]] == db.incidents;
  }

  /** A link is added only between an incident and an alert of the caller's organization. */
  lemma LinkIsAdded(db: Db, now: int, org: nat, incident: nat, alert: nat, i: nat, a: nat)
    ensures var r := Step(db, now, LinkAlert(org, incident, alert));
      && r == db.(links := r.links)
      && ((i, a) in r.links <==>
            || (i, a) in db.links
            || (i == incident && a == alert && i < |db.incidents| && a < |db.alerts| &&
                db.incidents[i].org == org == db.alerts[a].org))
  {
  }
}
