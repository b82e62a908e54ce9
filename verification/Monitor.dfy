/** The tables behind agents, metrics, alerts and incidents, and what one request or one
    worker pass does to them. A request that raises leaves every table as it was
    (backend/app/database.py:27-35), so each operation is a function from tables to tables.
    Rows of tables that never lose a row are identified by their index. */
module Monitor {
  import opened Prelude
  import DistinctOn

  const HEARTBEAT_TIMEOUT: nat := 300 * SECOND
  const FRESH_WINDOW: nat := 5 * MINUTE
  const REG_TOKEN_LIFETIME: nat := 24 * HOUR
  const DEFAULT_METRIC_DAYS: int := 90
  const DEFAULT_LOG_DAYS: int := 30

  datatype Server = Server(org: nat, hostname: string, environment: string, status: string, lastSeen: Option<int>)
  datatype Agent = Agent(server: nat, org: nat, token: nat, isActive: bool, lastHeartbeat: Option<int>)
  datatype RegToken = RegToken(org: nat, token: nat, environment: string, isUsed: bool, usedBy: Option<nat>,
                               expiresAt: int)
  datatype Metric = Metric(org: nat, server: Option<nat>, name: string, value: real, timestamp: int)
  datatype LogEntry = LogEntry(org: nat, server: Option<nat>, message: string, timestamp: int)
  datatype Rule = Rule(org: nat, ruleType: string, threshold: Option<real>, operator: Option<string>,
                       severity: string, isActive: bool, cooldownMinutes: int)
  datatype Alert = Alert(org: nat, rule: Option<nat>, server: Option<nat>, severity: string, status: string,
                         ruleType: string, triggerValue: Option<real>, createdAt: int,
                         acknowledged: Option<(int, nat)>, resolved: Option<(int, nat)>)
  datatype Incident = Incident(org: nat, status: string, resolvedAt: Option<int>)
  datatype Plan = Plan(metricDays: int, logDays: int)
  datatype Org = Org(isActive: bool, plan: Option<nat>)

  /** `issued` collects every agent token handed out so far; it stands for the freshness of
      `secrets.token_urlsafe`. Tokens are stored as they are: hashing is injective. */
  datatype Db = Db(servers: seq<Server>, agents: seq<Agent>, regTokens: seq<RegToken>,
                   metrics: seq<Metric>, logs: seq<LogEntry>,
                   rules: map<nat, Rule>, nextRule: nat, alerts: seq<Alert>,
                   incidents: seq<Incident>, links: set<(nat, nat)>,
                   orgs: map<nat, Org>, plans: map<nat, Plan>, issued: set<nat>)

  const EMPTY_DB := Db([], [], [], [], [], map[], 0, [], [], {}, map[], map[], {})

  /** A sample or log line as an agent sends it; without a timestamp the server's clock is used. */
  datatype Point = Point(name: string, value: real, timestamp: Option<int>)
  datatype Line = Line(message: string, timestamp: Option<int>)

  /** The fields of a rule that an update may set; None leaves the field alone. */
  datatype RuleUpdate = RuleUpdate(severity: Option<string>, threshold: Option<Option<real>>,
                                   isActive: Option<bool>, cooldownMinutes: Option<int>)

  /** `Evaluate` carries, for each rule, the rows of its query in the order the database sorted
      them: the order among equal sort keys is the database's choice. */
  datatype Event =
    | IssueRegToken(org: nat, token: nat, environment: string)
    | Register(regToken: nat, hostname: string, agentToken: nat)
    | Heartbeat(token: nat)
    | IngestMetrics(token: nat, points: seq<Point>)
    | IngestLogs(token: nat, lines: seq<Line>)
    | NodeMetrics(org: nat, points: seq<Point>)
    | Sweep
    | Evaluate(answers: map<nat, seq<Metric>>)
    | Cleanup
    | SetAlertStatus(org: nat, user: nat, alert: nat, status: string)
    | CreateRule(rule: Rule)
    | UpdateRule(org: nat, ruleId: nat, update: RuleUpdate)
    | DeleteRule(org: nat, ruleId: nat)
    | CreateIncident(org: nat, alertIds: seq<nat>)
    | UpdateIncident(org: nat, incident: nat, newStatus: Option<string>)
    | LinkAlert(org: nat, incident: nat, alert: nat)
    | SetOrg(id: nat, row: Org)
    | SetPlan(planId: nat, plan: Plan)

  // ---------------------------------------------------------------- lookups

  function AgentByToken(agents: seq<Agent>, token: nat): (r: Option<nat>)
    ensures r.Some? ==> r.value < |agents| && agents[r.value].isActive && agents[r.value].token == token
    ensures r.None? ==> forall i :: 0 <= i < |agents| ==> !(agents[i].isActive && agents[i].token == token)
  {
    FindLast(agents, (a: Agent) => a.isActive && a.token == token)
  }

  function UnusedRegToken(tokens: seq<RegToken>, token: nat): (r: Option<nat>)
    ensures r.Some? ==> r.value < |tokens| && !tokens[r.value].isUsed && tokens[r.value].token == token
    ensures r.None? ==> forall i :: 0 <= i < |tokens| ==> tokens[i].isUsed || tokens[i].token != token
  {
    FindLast(tokens, (t: RegToken) => !t.isUsed && t.token == token)
  }

  function ServerByName(servers: seq<Server>, org: nat, hostname: string): (r: Option<nat>)
    ensures r.Some? ==> r.value < |servers| && servers[r.value].org == org && servers[r.value].hostname == hostname
    ensures r.None? ==> forall i :: 0 <= i < |servers| ==> servers[i].org != org || servers[i].hostname != hostname
  {
    FindLast(servers, (s: Server) => s.org == org && s.hostname == hostname)
  }

  function AgentOfServer(agents: seq<Agent>, server: nat): (r: Option<nat>)
    ensures r.Some? ==> r.value < |agents| && agents[r.value].server == server
    ensures r.None? ==> forall i :: 0 <= i < |agents| ==> agents[i].server != server
  {
    FindLast(agents, (a: Agent) => a.server == server)
  }

  // ---------------------------------------------------------------- registration and heartbeats

  /** The registration token a request may spend at `now`, if any. */
  function SpendableToken(db: Db, now: int, regToken: nat): Option<nat>
  {
    var t := UnusedRegToken(db.regTokens, regToken);
    if t.Some? && db.regTokens[t.value].expiresAt < now then None else t
  }

  /** The server a registration lands on: the row of that name, or the next new row. */
  function TargetServer(db: Db, org: nat, hostname: string): (s: nat)
    ensures s <= |db.servers|
  {
    var found := ServerByName(db.servers, org, hostname);
    if found.Some? then found.value else |db.servers|
  }

  function RegisterAgent(db: Db, now: int, regToken: nat, hostname: string, agentToken: nat): Db
  {
    var t := SpendableToken(db, now, regToken);
    if t.None? then db
    else
      var reg := db.regTokens[t.value];
      var sid := TargetServer(db, reg.org, hostname);
      var servers := if sid < |db.servers|
                     then db.servers[sid := db.servers[sid].(status := "online", lastSeen := Some(now))]
                     else db.servers + [Server(reg.org, hostname, reg.environment, "online", Some(now))];
      var a := AgentOfServer(db.agents, sid);
      var agents := if a.Some?
                    then db.agents[a.value := db.agents[a.value].(token := agentToken, lastHeartbeat := Some(now))]
                    else db.agents + [Agent(sid, reg.org, agentToken, true, Some(now))];
      db.(servers := servers, agents := agents,
          regTokens := db.regTokens[t.value := reg.(isUsed := true, usedBy := Some(sid))],
          issued := db.issued + {agentToken})
  }

  function SeenOnline(db: Db, now: int, server: nat): Db
  {
    if server < |db.servers|
    then db.(servers := db.servers[server := db.servers[server].(status := "online", lastSeen := Some(now))])
    else db
  }

  function AcceptHeartbeat(db: Db, now: int, token: nat): Db
  {
    var a := AgentByToken(db.agents, token);
    if a.None? then db
    else
      var agent := db.agents[a.value];
      SeenOnline(db.(agents := db.agents[a.value := agent.(lastHeartbeat := Some(now))]), now, agent.server)
  }

  function Stamp(t: Option<int>, now: int): int { if t.Some? then t.value else now }

  function MetricRows(org: nat, server: Option<nat>, points: seq<Point>, now: int): (rows: seq<Metric>)
    ensures |rows| == |points|
    ensures forall i :: 0 <= i < |points| ==>
      rows[i] == Metric(org, server, points[i].name, points[i].value, Stamp(points[i].timestamp, now))
  {
    seq(|points|, i requires 0 <= i < |points| =>
      Metric(org, server, points[i].name, points[i].value, Stamp(points[i].timestamp, now)))
  }

  function LogRows(org: nat, server: Option<nat>, lines: seq<Line>, now: int): (rows: seq<LogEntry>)
    ensures |rows| == |lines|
    ensures forall i :: 0 <= i < |lines| ==>
      rows[i] == LogEntry(org, server, lines[i].message, Stamp(lines[i].timestamp, now))
  {
    seq(|lines|, i requires 0 <= i < |lines| => LogEntry(org, server, lines[i].message, Stamp(lines[i].timestamp, now)))
  }

  function AddMetrics(db: Db, now: int, token: nat, points: seq<Point>): Db
  {
    var a := AgentByToken(db.agents, token);
    if a.None? || db.agents[a.value].server >= |db.servers| then db
    else
      var sid := db.agents[a.value].server;
      SeenOnline(db.(metrics := db.metrics + MetricRows(db.servers[sid].org, Some(sid), points, now)), now, sid)
  }

  function AddLogs(db: Db, now: int, token: nat, lines: seq<Line>): Db
  {
    var a := AgentByToken(db.agents, token);
    if a.None? || db.agents[a.value].server >= |db.servers| then db
    else
      var sid := db.agents[a.value].server;
      db.(logs := db.logs + LogRows(db.servers[sid].org, Some(sid), lines, now))
  }

  // ---------------------------------------------------------------- heartbeat sweep

  predicate IsStale(agent: Agent, now: int)
  {
    agent.isActive && agent.lastHeartbeat.Some? && agent.lastHeartbeat.value < now - HEARTBEAT_TIMEOUT
  }

  predicate IsOpenOffline(alert: Alert, server: nat)
  {
    alert.server == Some(server) && alert.ruleType == "agent_offline" && alert.status == "open"
  }

  predicate HasOpenOffline(alerts: seq<Alert>, server: nat)
  {
    exists i :: 0 <= i < |alerts| && IsOpenOffline(alerts[i], server)
  }

  function OfflineAlert(agent: Agent, now: int): Alert
  {
    Alert(agent.org, None, Some(agent.server), "high", "open", "agent_offline", None, now, None, None)
  }

  predicate RaisesOffline(db: Db, agent: Agent, now: int)
  {
    IsStale(agent, now) && agent.server < |db.servers| && !HasOpenOffline(db.alerts, agent.server)
  }

  /** What the sweep does for one agent: the status is set only when an alert is raised. */
  function SweepAgent(db: Db, now: int, agent: Agent): Db
  {
    if RaisesOffline(db, agent, now)
    then db.(servers := db.servers[agent.server := db.servers[agent.server].(status := "offline")],
             alerts := db.alerts + [OfflineAlert(agent, now)])
    else db
  }

  /** The sweep over the first n agents. */
  function SweepTo(db: Db, now: int, n: nat): (r: Db)
    requires n <= |db.agents|
    ensures r == db.(servers := r.servers, alerts := r.alerts)
  {
    if n == 0 then db else SweepAgent(SweepTo(db, now, n - 1), now, db.agents[n - 1])
  }

  function SweepAll(db: Db, now: int): Db { SweepTo(db, now, |db.agents|) }

  // ---------------------------------------------------------------- rule evaluation

  function MetricName(ruleType: string): Option<string>
  {
    if ruleType == "cpu_high" then Some("cpu_percent")
    else if ruleType == "memory_high" then Some("memory_percent")
    else if ruleType == "disk_high" then Some("disk_percent")
    else if ruleType == "load_high" then Some("load_avg_1m")
    else None
  }

  predicate IsLive(status: string) { status == "open" || status == "acknowledged" }

  predicate HoldsCooldown(alert: Alert, ruleId: nat, since: int)
  {
    alert.rule == Some(ruleId) && alert.createdAt >= since && IsLive(alert.status)
  }

  predicate InCooldown(alerts: seq<Alert>, ruleId: nat, since: int)
  {
    exists i :: 0 <= i < |alerts| && HoldsCooldown(alerts[i], ruleId, since)
  }

  predicate MatchesRule(m: Metric, org: nat, name: string, since: int)
  {
    m.org == org && m.name == name && m.timestamp >= since && m.server.Some?
  }

  /** The rows the rule query selects, in table order. */
  function FreshRows(metrics: seq<Metric>, org: nat, name: string, since: int): (rows: seq<Metric>)
    ensures forall m :: m in rows <==> m in metrics && MatchesRule(m, org, name, since)
  {
    if metrics == [] then []
    else
      var rest := FreshRows(metrics[1..], org, name, since);
      if MatchesRule(metrics[0], org, name, since) then [metrics[0]] + rest else rest
  }

  function ServerKey(m: Metric): int { if m.server.Some? then m.server.value else -1 }

  function SampledAt(m: Metric): int { m.timestamp }

  /** The rows that DISTINCT ON (server_id) keeps of a sorted answer. */
  function LatestRows(answer: seq<Metric>): seq<Metric> { DistinctOn.FirstOfRuns(answer, ServerKey) }

  /** A comparison with an absent threshold raises, and the pass skips the rule. */
  predicate Triggers(rule: Rule, value: real)
  {
    var operator := if rule.operator.Some? && rule.operator.value != "" then rule.operator.value else ">";
    rule.threshold.Some? &&
    ((operator == ">" && value > rule.threshold.value) ||
     (operator == ">=" && value >= rule.threshold.value) ||
     (operator == "<" && value < rule.threshold.value))
  }

  function RuleAlert(rule: Rule, ruleId: nat, m: Metric, now: int): Alert
  {
    Alert(rule.org, Some(ruleId), m.server, rule.severity, "open", rule.ruleType, Some(m.value), now, None, None)
  }

  function RuleAlerts(rule: Rule, ruleId: nat, latest: seq<Metric>, now: int): seq<Alert>
  {
    if latest == [] then []
    else
      var last := |latest| - 1;
      RuleAlerts(rule, ruleId, latest[..last], now) +
      (if Triggers(rule, latest[last].value) then [RuleAlert(rule, ruleId, latest[last], now)] else [])
  }

  function CooldownStart(rule: Rule, now: int): int { now - rule.cooldownMinutes * MINUTE }

  /** What evaluating one rule adds, given the sorted rows of its query. */
  function NewRuleAlerts(alerts: seq<Alert>, rule: Rule, ruleId: nat, answer: seq<Metric>, now: int): seq<Alert>
  {
    if InCooldown(alerts, ruleId, CooldownStart(rule, now)) || MetricName(rule.ruleType).None? then []
    else RuleAlerts(rule, ruleId, LatestRows(answer), now)
  }

  function Answer(answers: map<nat, seq<Metric>>, ruleId: nat): seq<Metric>
  {
    if ruleId in answers then answers[ruleId] else []
  }

  function EvaluateRule(db: Db, now: int, ruleId: nat, answer: seq<Metric>): Db
  {
    if ruleId in db.rules && db.rules[ruleId].isActive
    then db.(alerts := db.alerts + NewRuleAlerts(db.alerts, db.rules[ruleId], ruleId, answer, now))
    else db
  }

  /** The pass over the rules with id below n. */
  function EvaluateTo(db: Db, now: int, answers: map<nat, seq<Metric>>, n: nat): (r: Db)
    ensures r == db.(alerts := r.alerts)
  {
    if n == 0 then db else EvaluateRule(EvaluateTo(db, now, answers, n - 1), now, n - 1, Answer(answers, n - 1))
  }

  function EvaluateAll(db: Db, now: int, answers: map<nat, seq<Metric>>): Db
  {
    EvaluateTo(db, now, answers, db.nextRule)
  }

  // ---------------------------------------------------------------- retention

  function PlanOf(plans: map<nat, Plan>, org: Org): Plan
  {
    if org.plan.Some? && org.plan.value in plans then plans[org.plan.value]
    else Plan(DEFAULT_METRIC_DAYS, DEFAULT_LOG_DAYS)
  }

  predicate MetricExpired(db: Db, now: int, m: Metric)
  {
    m.org in db.orgs && db.orgs[m.org].isActive && m.timestamp < now - PlanOf(db.plans, db.orgs[m.org]).metricDays * DAY
  }

  predicate LogExpired(db: Db, now: int, l: LogEntry)
  {
    l.org in db.orgs && db.orgs[l.org].isActive && l.timestamp < now - PlanOf(db.plans, db.orgs[l.org]).logDays * DAY
  }

  function KeptMetrics(db: Db, now: int, metrics: seq<Metric>): (kept: seq<Metric>)
    ensures forall m :: m in kept <==> m in metrics && !MetricExpired(db, now, m)
  {
    if metrics == [] then []
    else
      var rest := KeptMetrics(db, now, metrics[1..]);
      if MetricExpired(db, now, metrics[0]) then rest else [metrics[0]] + rest
  }

  function KeptLogs(db: Db, now: int, logs: seq<LogEntry>): (kept: seq<LogEntry>)
    ensures forall l :: l in kept <==> l in logs && !LogExpired(db, now, l)
  {
    if logs == [] then []
    else
      var rest := KeptLogs(db, now, logs[1..]);
      if LogExpired(db, now, logs[0]) then rest else [logs[0]] + rest
  }

  function CleanupAll(db: Db, now: int): Db
  {
    db.(metrics := KeptMetrics(db, now, db.metrics), logs := KeptLogs(db, now, db.logs))
  }

  // ---------------------------------------------------------------- alerts, rules, incidents

  /** Any status string is accepted; only two of them also stamp the row. */
  function WithStatus(alert: Alert, now: int, user: nat, status: string): Alert
  {
    var stamped :=
      if status == "acknowledged" && alert.status == "open" then alert.(acknowledged := Some((now, user)))
      else if status == "resolved" then alert.(resolved := Some((now, user)))
      else alert;
    stamped.(status := status)
  }

  function UpdateAlertStatus(db: Db, now: int, org: nat, user: nat, alert: nat, status: string): Db
  {
    if alert < |db.alerts| && db.alerts[alert].org == org
    then db.(alerts := db.alerts[alert := WithStatus(db.alerts[alert], now, user, status)])
    else db
  }

  function Revised(rule: Rule, u: RuleUpdate): Rule
  {
    rule.(severity := if u.severity.Some? then u.severity.value else rule.severity,
          threshold := if u.threshold.Some? then u.threshold.value else rule.threshold,
          isActive := if u.isActive.Some? then u.isActive.value else rule.isActive,
          cooldownMinutes := if u.cooldownMinutes.Some? then u.cooldownMinutes.value else rule.cooldownMinutes)
  }

  function ReviseRule(db: Db, org: nat, ruleId: nat, u: RuleUpdate): Db
  {
    if ruleId in db.rules && db.rules[ruleId].org == org
    then db.(rules := db.rules[ruleId := Revised(db.rules[ruleId], u)])
    else db
  }

  /** Alerts of a deleted rule stay, with their rule reference cleared. */
  function Detached(alerts: seq<Alert>, ruleId: nat): (r: seq<Alert>)
    ensures |r| == |alerts|
    ensures forall i :: 0 <= i < |alerts| ==>
      r[i] == if alerts[i].rule == Some(ruleId) then alerts[i].(rule := None) else alerts[i]
  {
    seq(|alerts|, i requires 0 <= i < |alerts| =>
      if alerts[i].rule == Some(ruleId) then alerts[i].(rule := None) else alerts[i])
  }

  function RemoveRule(db: Db, org: nat, ruleId: nat): Db
  {
    if ruleId in db.rules && db.rules[ruleId].org == org
    then db.(rules := db.rules - {ruleId}, alerts := Detached(db.alerts, ruleId))
    else db
  }

  /** Alerts of another organization are skipped silently. */
  function OpenIncident(db: Db, org: nat, alertIds: seq<nat>): Db
  {
    var id := |db.incidents|;
    db.(incidents := db.incidents + [Incident(org, "open", None)],
        links := db.links + set a | a in alertIds && a < |db.alerts| && db.alerts[a].org == org :: (id, a))
  }

  function ReviseIncident(db: Db, now: int, org: nat, incident: nat, status: Option<string>): Db
  {
    if incident < |db.incidents| && db.incidents[incident].org == org
    then
      var row := db.incidents[incident];
      var named := if status.Some? then row.(status := status.value) else row;
      db.(incidents := db.incidents[incident :=
        if status == Some("resolved") && row.resolvedAt.None? then named.(resolvedAt := Some(now)) else named])
    else db
  }

  function Link(db: Db, org: nat, incident: nat, alert: nat): Db
  {
    if incident < |db.incidents| && db.incidents[incident].org == org && alert < |db.alerts| &&
       db.alerts[alert].org == org
    then db.(links := db.links + {(incident, alert)})
    else db
  }

  // ---------------------------------------------------------------- one step

  function Step(db: Db, now: int, e: Event): Db
  {
    match e
    case IssueRegToken(org, token, environment) =>
      db.(regTokens := db.regTokens + [RegToken(org, token, environment, false, None, now + REG_TOKEN_LIFETIME)])
    case Register(regToken, hostname, agentToken) => RegisterAgent(db, now, regToken, hostname, agentToken)
    case Heartbeat(token) => AcceptHeartbeat(db, now, token)
    case IngestMetrics(token, points) => AddMetrics(db, now, token, points)
    case IngestLogs(token, lines) => AddLogs(db, now, token, lines)
    case NodeMetrics(org, points) => db.(metrics := db.metrics + MetricRows(org, None, points, now))
    case Sweep => SweepAll(db, now)
    case Evaluate(answers) => EvaluateAll(db, now, answers)
    case Cleanup => CleanupAll(db, now)
    case SetAlertStatus(org, user, alert, status) => UpdateAlertStatus(db, now, org, user, alert, status)
    case CreateRule(rule) => db.(rules := db.rules[db.nextRule := rule], nextRule := db.nextRule + 1)
    case UpdateRule(org, ruleId, update) => ReviseRule(db, org, ruleId, update)
    case DeleteRule(org, ruleId) => RemoveRule(db, org, ruleId)
    case CreateIncident(org, alertIds) => OpenIncident(db, org, alertIds)
    case UpdateIncident(org, incident, newStatus) => ReviseIncident(db, now, org, incident, newStatus)
    case LinkAlert(org, incident, alert) => Link(db, org, incident, alert)
    case SetOrg(id, row) => db.(orgs := db.orgs[id := row])
    case SetPlan(planId, plan) => db.(plans := db.plans[planId := plan])
  }

  ghost predicate IsRuleAnswer(metrics: seq<Metric>, rule: Rule, now: int, answer: seq<Metric>)
  {
    MetricName(rule.ruleType).Some? ==>
      DistinctOn.IsAnswer(FreshRows(metrics, rule.org, MetricName(rule.ruleType).value, now - FRESH_WINDOW), answer,
                          ServerKey, SampledAt)
  }

  /** A rule's query is answered with its rows, sorted by server id and then newest first. */
  ghost predicate ValidAnswers(db: Db, now: int, answers: map<nat, seq<Metric>>)
  {
    forall r :: r in db.rules ==> IsRuleAnswer(db.metrics, db.rules[r], now, Answer(answers, r))
  }

  /** Generated tokens are fresh, and query answers are answers. */
  ghost predicate ValidEvent(db: Db, now: int, e: Event)
  {
    match e
    case IssueRegToken(_, token, _) => forall i :: 0 <= i < |db.regTokens| ==> db.regTokens[i].token != token
    case Register(_, _, agentToken) => agentToken !in db.issued
    case Evaluate(answers) => ValidAnswers(db, now, answers)
    case _ => true
  }

  // ---------------------------------------------------------------- runs

  datatype Timed = Timed(now: int, event: Event)

  /** The tables after the first n events of a run that starts from empty tables. */
  ghost function StateAt(run: seq<Timed>, n: nat): Db
    requires n <= |run|
  {
    if n == 0 then EMPTY_DB else Step(StateAt(run, n - 1), run[n - 1].now, run[n - 1].event)
  }

  ghost predicate ValidAt(run: seq<Timed>, i: nat)
    requires i < |run|
  {
    ValidEvent(StateAt(run, i), run[i].now, run[i].event)
  }

  ghost predicate IsRun(run: seq<Timed>)
  {
    && (forall i, j :: 0 <= i < j < |run| ==> run[i].now <= run[j].now)
    && (forall i :: 0 <= i < |run| ==> ValidAt(run, i))
  }

  // Which tables each kind of event leaves alone.

  lemma AgentFrame(db: Db, now: int, e: Event)
    ensures !(e.Register? || e.Heartbeat? || e.IngestMetrics? || e.Sweep?) ==> Step(db, now, e).servers == db.servers
    ensures !(e.Register? || e.Heartbeat?) ==> Step(db, now, e).agents == db.agents
    ensures !(e.Register? || e.IssueRegToken?) ==> Step(db, now, e).regTokens == db.regTokens
    ensures !e.Register? ==> Step(db, now, e).issued == db.issued
  {
  }

  lemma SampleFrame(db: Db, now: int, e: Event)
    ensures !(e.IngestMetrics? || e.NodeMetrics? || e.Cleanup?) ==> Step(db, now, e).metrics == db.metrics
    ensures !(e.IngestLogs? || e.Cleanup?) ==> Step(db, now, e).logs == db.logs
  {
  }

  lemma OrgFrame(db: Db, now: int, e: Event)
    ensures !e.SetOrg? ==> Step(db, now, e).orgs == db.orgs
    ensures !e.SetPlan? ==> Step(db, now, e).plans == db.plans
  {
    hide AgentByToken, UnusedRegToken, ServerByName, AgentOfServer;
    hide SweepTo, EvaluateTo, KeptMetrics, KeptLogs, Detached;
  }

  lemma RuleFrame(db: Db, now: int, e: Event)
    ensures !(e.CreateRule? || e.UpdateRule? || e.DeleteRule?) ==>
      Step(db, now, e).rules == db.rules && Step(db, now, e).nextRule == db.nextRule
  {
  }

  lemma AlertFrame(db: Db, now: int, e: Event)
    ensures !(e.Sweep? || e.Evaluate? || e.SetAlertStatus? || e.DeleteRule?) ==> Step(db, now, e).alerts == db.alerts
  {
  }
}
