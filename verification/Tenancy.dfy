/** Tenant coherence: whatever the interleaving of requests and worker passes, a row that
    refers to another row belongs to the same organization as that row. */
module Tenancy {
  import opened Prelude
  import opened Monitor
  import DistinctOn

  predicate OwnsServer(servers: seq<Server>, org: nat, server: Option<nat>)
  {
    server.Some? ==> server.value < |servers| && servers[server.value].org == org
  }

  predicate AgentsOk(servers: seq<Server>, agents: seq<Agent>)
  {
    forall i :: 0 <= i < |agents| ==> OwnsServer(servers, agents[i].org, Some(agents[i].server))
  }

  predicate MetricsOk(servers: seq<Server>, metrics: seq<Metric>)
  {
    forall m :: m in metrics ==> OwnsServer(servers, m.org, m.server)
  }

  predicate LogsOk(servers: seq<Server>, logs: seq<LogEntry>)
  {
    forall l :: l in logs ==> OwnsServer(servers, l.org, l.server)
  }

  predicate RegTokensOk(servers: seq<Server>, tokens: seq<RegToken>)
  {
    forall i :: 0 <= i < |tokens| ==> OwnsServer(servers, tokens[i].org, tokens[i].usedBy)
  }

  predicate NamesRule(rules: map<nat, Rule>, a: Alert)
  {
    a.rule.Some? ==> a.rule.value in rules && rules[a.rule.value].org == a.org
  }

  predicate AlertsOk(servers: seq<Server>, rules: map<nat, Rule>, alerts: seq<Alert>)
  {
    forall i :: 0 <= i < |alerts| ==>
      OwnsServer(servers, alerts[i].org, alerts[i].server) && NamesRule(rules, alerts[i])
  }

  predicate LinksOk(incidents: seq<Incident>, alerts: seq<Alert>, links: set<(nat, nat)>)
  {
    forall l :: l in links ==> l.0 < |incidents| && l.1 < |alerts| && incidents[l.0].org == alerts[l.1].org
  }

  predicate RulesOk(rules: map<nat, Rule>, nextRule: nat)
  {
    forall r :: r in rules ==> r < nextRule
  }

  ghost predicate Coherent(db: Db)
  {
    && AgentsOk(db.servers, db.agents)
    && MetricsOk(db.servers, db.metrics)
    && LogsOk(db.servers, db.logs)
    && RegTokensOk(db.servers, db.regTokens)
    && AlertsOk(db.servers, db.rules, db.alerts)
    && LinksOk(db.incidents, db.alerts, db.links)
    && RulesOk(db.rules, db.nextRule)
  }

  /** Server rows may be added or updated as long as each keeps its organization. */
  lemma ServersKeepOrgs(db: Db, servers: seq<Server>)
    requires Coherent(db)
    requires |db.servers| <= |servers| && forall i :: 0 <= i < |db.servers| ==> servers[i].org == db.servers[i].org
    ensures Coherent(db.(servers := servers))
  {
    forall org, s | OwnsServer(db.servers, org, s) ensures OwnsServer(servers, org, s) {}
  }

  lemma AppendAlerts(db: Db, alerts: seq<Alert>)
    requires Coherent(db) && AlertsOk(db.servers, db.rules, alerts)
    ensures Coherent(db.(alerts := db.alerts + alerts))
  {
  }

  lemma SweepCoherent(db: Db, now: int, n: nat)
    requires Coherent(db) && n <= |db.agents|
    ensures Coherent(SweepTo(db, now, n))
  {
    if n > 0 {
      SweepCoherent(db, now, n - 1);
      var mid := SweepTo(db, now, n - 1);
      var agent := db.agents[n - 1];
      assert mid.agents[n - 1] == agent;
      if RaisesOffline(mid, agent, now) {
        var servers := mid.servers[agent.server := mid.servers[agent.server].(status := "offline")];
        ServersKeepOrgs(mid, servers);
        AppendAlerts(mid.(servers := servers), [OfflineAlert(agent, now)]);
      }
    }
  }

  lemma RuleAlertsFrom(rule: Rule, ruleId: nat, latest: seq<Metric>, now: int)
    ensures forall a :: a in RuleAlerts(rule, ruleId, latest, now) ==>
      exists m :: m in latest && Triggers(rule, m.value) && a == RuleAlert(rule, ruleId, m, now)
  {
    if latest != [] {
      var last := |latest| - 1;
      RuleAlertsFrom(rule, ruleId, latest[..last], now);
      forall a | a in RuleAlerts(rule, ruleId, latest, now)
        ensures exists m :: m in latest && Triggers(rule, m.value) && a == RuleAlert(rule, ruleId, m, now)
      {
        if a in RuleAlerts(rule, ruleId, latest[..last], now) {
          var m :| m in latest[..last] && Triggers(rule, m.value) && a == RuleAlert(rule, ruleId, m, now);
          assert m in latest;
        } else {
          assert latest[last] in latest;
        }
      }
    }
  }

  /** Every alert a rule evaluation adds names the rule and comes from a fresh row of its
      organization. */
  lemma NewAlertsFromFreshRows(db: Db, now: int, rule: Rule, ruleId: nat, answer: seq<Metric>,
                               alerts: seq<Alert>, a: Alert)
    requires IsRuleAnswer(db.metrics, rule, now, answer)
    requires a in NewRuleAlerts(alerts, rule, ruleId, answer, now)
    ensures MetricName(rule.ruleType).Some?
    ensures exists m :: m in db.metrics && MatchesRule(m, rule.org, MetricName(rule.ruleType).value,
        now - FRESH_WINDOW) &&
                        a == RuleAlert(rule, ruleId, m, now)
  {
    var rows := FreshRows(db.metrics, rule.org, MetricName(rule.ruleType).value, now - FRESH_WINDOW);
    RuleAlertsFrom(rule, ruleId, LatestRows(answer), now);
    DistinctOn.RunsAreRows(answer, ServerKey);
    DistinctOn.SameRows(rows, answer);
    var m :| m in LatestRows(answer) && Triggers(rule, m.value) && a == RuleAlert(rule, ruleId, m, now);
    assert m in rows;
  }

  lemma RuleCoherent(db: Db, mid: Db, now: int, ruleId: nat, answer: seq<Metric>)
    requires Coherent(mid) && mid.metrics == db.metrics && mid.rules == db.rules
    requires ruleId in db.rules ==> IsRuleAnswer(db.metrics, db.rules[ruleId], now, answer)
    ensures Coherent(EvaluateRule(mid, now, ruleId, answer))
  {
    if ruleId in db.rules && db.rules[ruleId].isActive {
      var rule := db.rules[ruleId];
      var added := NewRuleAlerts(mid.alerts, rule, ruleId, answer, now);
      forall i | 0 <= i < |added|
        ensures OwnsServer(mid.servers, added[i].org, added[i].server) && NamesRule(mid.rules, added[i])
      {
        NewAlertsFromFreshRows(db, now, rule, ruleId, answer, mid.alerts, added[i]);
      }
      AppendAlerts(mid, added);
    }
  }

  lemma {:induction false} EvaluateCoherent(db: Db, now: int, answers: map<nat, seq<Metric>>, n: nat)
    requires Coherent(db) && ValidAnswers(db, now, answers)
    ensures Coherent(EvaluateTo(db, now, answers, n))
  {
    hide Coherent, DistinctOn.IsAnswer;
    if n > 0 {
      EvaluateCoherent(db, now, answers, n - 1);
      var mid := EvaluateTo(db, now, answers, n - 1);
      assert mid == db.(alerts := mid.alerts);
      RuleCoherent(db, mid, now, n - 1, Answer(answers, n - 1));
    }
  }

  lemma RegisterCoherent(db: Db, now: int, regToken: nat, hostname: string, agentToken: nat)
    requires Coherent(db)
    ensures Coherent(RegisterAgent(db, now, regToken, hostname, agentToken))
  {
    var t := SpendableToken(db, now, regToken);
    if t.Some? {
      var r := RegisterAgent(db, now, regToken, hostname, agentToken);
      ServersKeepOrgs(db, r.servers);
      assert OwnsServer(r.servers, db.regTokens[t.value].org, r.regTokens[t.value].usedBy);
      assert AgentsOk(r.servers, r.agents);
    }
  }

  lemma SeenOnlineCoherent(db: Db, now: int, server: nat)
    requires Coherent(db)
    ensures Coherent(SeenOnline(db, now, server))
  {
    if server < |db.servers| { ServersKeepOrgs(db, SeenOnline(db, now, server).servers); }
  }

  lemma AgentOpsCoherent(db: Db, now: int, e: Event)
    requires Coherent(db) && (e.Heartbeat? || e.IngestMetrics? || e.IngestLogs?)
    ensures Coherent(Step(db, now, e))
  {
    var a := AgentByToken(db.agents, e.token);
    if a.Some? {
      var agent := db.agents[a.value];
      match e {
        case Heartbeat(_) =>
          var stamped := db.(agents := db.agents[a.value := agent.(lastHeartbeat := Some(now))]);
          assert Coherent(stamped);
          SeenOnlineCoherent(stamped, now, agent.server);
        case IngestMetrics(_, points) =>
          var rows := MetricRows(db.servers[agent.server].org, Some(agent.server), points, now);
          var grown := db.(metrics := db.metrics + rows);
          assert Coherent(grown);
          SeenOnlineCoherent(grown, now, agent.server);
        case IngestLogs(_, lines) =>
          assert LogsOk(db.servers, LogRows(db.servers[agent.server].org, Some(agent.server), lines, now));
      }
    }
  }

  /** One request or pass keeps the tables coherent. */
  lemma StepCoherent(db: Db, now: int, e: Event)
    requires Coherent(db) && ValidEvent(db, now, e)
    ensures Coherent(Step(db, now, e))
  {
    match e
    case Register(regToken, hostname, agentToken) => RegisterCoherent(db, now, regToken, hostname, agentToken);
    case Sweep => SweepCoherent(db, now, |db.agents|);
    case Evaluate(answers) => EvaluateCoherent(db, now, answers, db.nextRule);
    case Heartbeat(_) => AgentOpsCoherent(db, now, e);
    case IngestMetrics(_, _) => AgentOpsCoherent(db, now, e);
    case IngestLogs(_, _) => AgentOpsCoherent(db, now, e);
    case _ =>
      if e.CreateRule? || e.UpdateRule? || e.DeleteRule? {
        RuleOpsCoherent(db, now, e);
      } else if e.CreateIncident? || e.UpdateIncident? || e.LinkAlert? {
        IncidentOpsCoherent(db, now, e);
      } else if e.SetAlertStatus? {
        StatusCoherent(db, now, e);
      } else {
        OtherStepCoherent(db, now, e);
      }
  }

  lemma DetachedOk(servers: seq<Server>, rules: map<nat, Rule>, alerts: seq<Alert>, ruleId: nat)
    requires AlertsOk(servers, rules, alerts)
    ensures AlertsOk(servers, rules - {ruleId}, Detached(alerts, ruleId))
  {
  }

  lemma RuleOpsCoherent(db: Db, now: int, e: Event)
    requires Coherent(db) && (e.CreateRule? || e.UpdateRule? || e.DeleteRule?)
    ensures Coherent(Step(db, now, e))
  {
    match e
    case CreateRule(_) => assert AlertsOk(db.servers, Step(db, now, e).rules, db.alerts);
    case UpdateRule(_, _, _) => assert AlertsOk(db.servers, Step(db, now, e).rules, db.alerts);
    case DeleteRule(_, ruleId) => DetachedOk(db.servers, db.rules, db.alerts, ruleId);
  }

  lemma IncidentOpsCoherent(db: Db, now: int, e: Event)
    requires Coherent(db) && (e.CreateIncident? || e.UpdateIncident? || e.LinkAlert?)
    ensures Coherent(Step(db, now, e))
  {
    match e
    case CreateIncident(org, alertIds) => assert LinksOk(Step(db, now, e).incidents, db.alerts, Step(db, now, e).links);
    case UpdateIncident(_, _, _) => assert LinksOk(Step(db, now, e).incidents, db.alerts, db.links);
    case LinkAlert(_, _, _) => assert LinksOk(db.incidents, db.alerts, Step(db, now, e).links);
  }

  lemma StatusCoherent(db: Db, now: int, e: Event)
    requires Coherent(db) && e.SetAlertStatus?
    ensures Coherent(Step(db, now, e))
  {
    assert LinksOk(db.incidents, Step(db, now, e).alerts, db.links);
  }

  lemma OtherStepCoherent(db: Db, now: int, e: Event)
    requires Coherent(db)
    requires e.IssueRegToken? || e.NodeMetrics? || e.Cleanup? || e.SetOrg? || e.SetPlan?
    ensures Coherent(Step(db, now, e))
  {
  }

  /** Tenant coherence in every reachable state. */
  lemma {:induction false} ReachableCoherent(run: seq<Timed>, n: nat)
    requires IsRun(run) && n <= |run|
    ensures Coherent(StateAt(run, n))
  {
    if n > 0 {
      ReachableCoherent(run, n - 1);
      assert ValidAt(run, n - 1);
      hide Step, Coherent;
      StepCoherent(StateAt(run, n - 1), run[n - 1].now, run[n - 1].event);
    }
  }
}
