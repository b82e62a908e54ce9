/** What a pass over the alert rules and a heartbeat sweep leave behind, read off the tables
    before and after. */
module RuleLaws {
  import opened Prelude
  import opened Monitor
  import AlertEngine
  import Cooldown
  import DistinctOn
  import OfflineAlerts
  import Registration
  import Tenancy

  // ---------------------------------------------------------------- rules

  /** While an alert of the rule that is open or acknowledged is no older than the cooldown, a
      pass adds no alert for the rule. */
  lemma SilentInCooldown(db: Db, now: int, answers: map<nat, seq<Metric>>, ruleId: nat, x: nat)
    requires ruleId in db.rules && x < |db.alerts| && db.alerts[x].rule == Some(ruleId)
    requires db.alerts[x].status == "open" || db.alerts[x].status == "acknowledged"
    requires db.alerts[x].createdAt >= now - db.rules[ruleId].cooldownMinutes * (60 * 1_000_000)
    ensures var after := Step(db, now, Evaluate(answers)).alerts;
      && db.alerts <= after
      && forall i :: |db.alerts| <= i < |after| ==> after[i].rule != Some(ruleId)
  {
    var after := Step(db, now, Evaluate(answers)).alerts;
    AlertEngine.PassAdds(db, now, answers, db.nextRule);
    assert HoldsCooldown(db.alerts[x], ruleId, CooldownStart(db.rules[ruleId], now));
    forall i | |db.alerts| <= i < |after| ensures after[i].rule != Some(ruleId) {
      Cooldown.AddedMeansEvaluates(db, now, answers, db.nextRule, i);
    }
  }

  // Every alert a pass adds comes from a row that the query of its rule has picked.
  lemma {:induction false} AddedFromRow(db: Db, now: int, answers: map<nat, seq<Metric>>, n: nat, x: nat)
    returns (m: Metric)
    requires |db.alerts| <= x < |EvaluateTo(db, now, answers, n).alerts|
    ensures var a := EvaluateTo(db, now, answers, n).alerts[x];
      && a.rule.Some? && a.rule.value in db.rules && m in LatestRows(Answer(answers, a.rule.value))
      && Triggers(db.rules[a.rule.value], m.value) && a == RuleAlert(db.rules[a.rule.value], a.rule.value, m, now)
  {
    hide InCooldown, Triggers, RuleAlerts, LatestRows;
    var mid, r := EvaluateTo(db, now, answers, n - 1), EvaluateTo(db, now, answers, n);
    assert mid == db.(alerts := mid.alerts);
    if x < |mid.alerts| {
      m := AddedFromRow(db, now, answers, n - 1, x);
      assert r.alerts[x] == mid.alerts[x];
    } else {
      var rule, latest := db.rules[n - 1], LatestRows(Answer(answers, n - 1));
      var added := RuleAlerts(rule, n - 1, latest, now);
      assert r.alerts == mid.alerts + added && r.alerts[x] == added[x - |mid.alerts|];
      assert r.alerts[x] in added;
      Tenancy.RuleAlertsFrom(rule, n - 1, latest, now);
      m :| m in latest && Triggers(rule, m.value) && r.alerts[x] == RuleAlert(rule, n - 1, m, now);
    }
  }

  // The types of rule, and the metric each one watches.
  predicate Watches(ruleType: string, name: string)
  {
    || (ruleType == "cpu_high" && name == "cpu_percent")
    || (ruleType == "memory_high" && name == "memory_percent")
    || (ruleType == "disk_high" && name == "disk_percent")
    || (ruleType == "load_high" && name == "load_avg_1m")
  }

  /** The sample is of that organization, metric and server, and not older than five minutes. */
  predicate IsFresh(m: Metric, org: nat, name: string, server: nat, now: int)
  {
    m.org == org && m.name == name && m.server == Some(server) && m.timestamp >= now - 5 * 60 * 1_000_000
  }

  // A row picked for the server is one of its newest fresh samples.
  lemma PickedIsNewest(metrics: seq<Metric>, rule: Rule, now: int, answer: seq<Metric>, name: string, server: nat,
                       m: Metric)
    requires MetricName(rule.ruleType) == Some(name) && IsRuleAnswer(metrics, rule, now, answer)
    requires m in LatestRows(answer) && m.server == Some(server)
    ensures m in metrics && IsFresh(m, rule.org, name, server, now)
    ensures forall n :: n in metrics && IsFresh(n, rule.org, name, server, now) ==> n.timestamp <= m.timestamp
  {
    var rows := FreshRows(metrics, rule.org, name, now - FRESH_WINDOW);
    DistinctOn.RunsPickLatest(rows, answer, ServerKey, SampledAt);
    var i :| 0 <= i < |LatestRows(answer)| && LatestRows(answer)[i] == m;
    assert DistinctOn.IsLatest(rows, m, ServerKey, SampledAt);
    forall n | n in metrics && IsFresh(n, rule.org, name, server, now) ensures n.timestamp <= m.timestamp {
      assert n in rows && ServerKey(n) == ServerKey(m) && SampledAt(n) <= SampledAt(m);
    }
  }

  lemma FreshIsPicked(metrics: seq<Metric>, rule: Rule, now: int, answer: seq<Metric>, name: string, server: nat,
                      m: Metric) returns (i: nat)
    requires MetricName(rule.ruleType) == Some(name) && IsRuleAnswer(metrics, rule, now, answer)
    requires m in metrics && IsFresh(m, rule.org, name, server, now)
    ensures i < |LatestRows(answer)| && LatestRows(answer)[i].server == Some(server)
  {
    var rows := FreshRows(metrics, rule.org, name, now - FRESH_WINDOW);
    DistinctOn.RunsPickLatest(rows, answer, ServerKey, SampledAt);
    assert DistinctOn.Covers(LatestRows(answer), ServerKey, ServerKey(m));
    i :| 0 <= i < |LatestRows(answer)| && ServerKey(LatestRows(answer)[i]) == ServerKey(m);
    assert DistinctOn.IsLatest(rows, LatestRows(answer)[i], ServerKey, SampledAt);
  }

  /** The alert at i was added, for the rule and the server. */
  predicate IsNew(before: seq<Alert>, after: seq<Alert>, i: int, ruleId: nat, server: nat)
  {
    |before| <= i < |after| && after[i].rule == Some(ruleId) && after[i].server == Some(server)
  }

  // Alerts of one rule and server in one pass: at most one, and one when the count has grown.
  lemma AtMostOne(before: seq<Alert>, after: seq<Alert>, i: nat, j: nat, ruleId: nat, server: nat)
    requires before <= after && IsNew(before, after, i, ruleId, server) && IsNew(before, after, j, ruleId, server)
    requires AlertEngine.CountFor(after, ruleId, server) <= AlertEngine.CountFor(before, ruleId, server) + 1
    ensures i == j
  {
    assert after[..|before|] == before;
    if i != j {
      Cooldown.CountAtLeast(after, |before|, if i < j then i else j, if i < j then j else i, ruleId, server);
    }
  }

  lemma {:induction false} CountedIsNew(before: seq<Alert>, after: seq<Alert>, ruleId: nat, server: nat)
    returns (i: nat)
    requires before <= after
    requires AlertEngine.CountFor(after, ruleId, server) > AlertEngine.CountFor(before, ruleId, server)
    ensures IsNew(before, after, i, ruleId, server)
  {
    var last := |after| - 1;
    if after != before {
      if IsNew(before, after, last, ruleId, server) {
        i := last;
      } else {
        i := CountedIsNew(before, after[..last], ruleId, server);
      }
    }
  }

  // What a pass comes to for one rule and one server.
  lemma PassFor(db: Db, now: int, answers: map<nat, seq<Metric>>, ruleId: nat, server: nat)
    requires Tenancy.Coherent(db) && ValidAnswers(db, now, answers)
    ensures var after := Step(db, now, Evaluate(answers)).alerts;
      && db.alerts <= after
      && (forall i, j :: IsNew(db.alerts, after, i, ruleId, server) && IsNew(db.alerts, after, j, ruleId, server)
            ==> i == j)
      && ((AlertEngine.Evaluates(db, now, ruleId) &&
           AlertEngine.TriggersFor(db.rules[ruleId], LatestRows(Answer(answers, ruleId)), server))
            ==> exists i :: IsNew(db.alerts, after, i, ruleId, server))
  {
    hide AlertEngine.TriggersFor, IsNew;
    var after := Step(db, now, Evaluate(answers)).alerts;
    AlertEngine.PassAdds(db, now, answers, db.nextRule);
    AlertEngine.CountAfter(db, now, answers, db.nextRule, ruleId, server);
    forall i, j | IsNew(db.alerts, after, i, ruleId, server) && IsNew(db.alerts, after, j, ruleId, server)
      ensures i == j
    {
      IsNewInRange(db.alerts, after, i, ruleId, server);
      IsNewInRange(db.alerts, after, j, ruleId, server);
      AtMostOne(db.alerts, after, i, j, ruleId, server);
    }
    if AlertEngine.Evaluates(db, now, ruleId) &&
       AlertEngine.TriggersFor(db.rules[ruleId], LatestRows(Answer(answers, ruleId)), server)
    {
      assert ruleId < db.nextRule by { EvaluatedIsOld(db, now, ruleId); }
      var i := CountedIsNew(db.alerts, after, ruleId, server);
    }
  }

  lemma IsNewInRange(before: seq<Alert>, after: seq<Alert>, i: int, ruleId: nat, server: nat)
    requires IsNew(before, after, i, ruleId, server)
    ensures 0 <= i < |after|
  {
  }

  lemma EvaluatedIsOld(db: Db, now: int, ruleId: nat)
    requires Tenancy.Coherent(db) && AlertEngine.Evaluates(db, now, ruleId)
    ensures ruleId < db.nextRule
  {
  }

  lemma TriggersIs(rule: Rule, value: real)
    ensures Triggers(rule, value) <==>
      rule.threshold.Some? && (
      || ((rule.operator == None || rule.operator == Some("") || rule.operator == Some(">")) &&
          value > rule.threshold.value)
      || (rule.operator == Some(">=") && value >= rule.threshold.value)
      || (rule.operator == Some("<") && value < rule.threshold.value))
  {
  }

  lemma OutsideCooldown(db: Db, now: int, ruleId: nat)
    requires ruleId in db.rules && db.rules[ruleId].isActive && MetricName(db.rules[ruleId].ruleType).Some?
    requires forall x :: 0 <= x < |db.alerts| && db.alerts[x].rule == Some(ruleId) ==>
      || db.alerts[x].createdAt < now - db.rules[ruleId].cooldownMinutes * (60 * 1_000_000)
      || (db.alerts[x].status != "open" && db.alerts[x].status != "acknowledged")
    ensures AlertEngine.Evaluates(db, now, ruleId)
  {
  }

  lemma WatchedName(ruleType: string, name: string)
    ensures Watches(ruleType, name) <==> MetricName(ruleType) == Some(name)
  {
  }

  // What the pass comes to when the row picked for the server has the value of m.
  lemma DecidedBy(db: Db, now: int, answers: map<nat, seq<Metric>>, ruleId: nat, server: nat, m: Metric, k: nat)
    requires Tenancy.Coherent(db) && ValidAnswers(db, now, answers) && AlertEngine.Evaluates(db, now, ruleId)
    requires m.server == Some(server) && k < |LatestRows(Answer(answers, ruleId))|
    requires LatestRows(Answer(answers, ruleId))[k].server == Some(server)
    requires forall p :: p in LatestRows(Answer(answers, ruleId)) && p.server == Some(server) ==> p.value == m.value
    ensures var after := Step(db, now, Evaluate(answers)).alerts;
      && (Triggers(db.rules[ruleId], m.value) <==> exists i :: IsNew(db.alerts, after, i, ruleId, server))
      && (forall i :: IsNew(db.alerts, after, i, ruleId, server) ==>
            after[i] == RuleAlert(db.rules[ruleId], ruleId, m, now))
  {
    PassFor(db, now, answers, ruleId, server);
    hide AlertEngine.Evaluates, ValidAnswers, LatestRows, Tenancy.Coherent, Triggers, Step;
    EvaluationOf(db, now, answers);
    var rule, after := db.rules[ruleId], Step(db, now, Evaluate(answers)).alerts;
    forall i | IsNew(db.alerts, after, i, ruleId, server)
      ensures Triggers(rule, m.value) && after[i] == RuleAlert(rule, ruleId, m, now)
    {
      var p := AddedFromRow(db, now, answers, db.nextRule, i);
    }
    assert LatestRows(Answer(answers, ruleId))[k] in LatestRows(Answer(answers, ruleId));
  }

  /** Outside cooldown, a pass adds an alert for a server exactly when the newest of its samples
      of the last five minutes meets the rule's operator, and at most one. Newest samples that
      tie are taken to agree on the value. */
  lemma AlertsOutsideCooldown(db: Db, now: int, answers: map<nat, seq<Metric>>, ruleId: nat, server: nat, m: Metric)
    requires Tenancy.Coherent(db) && ValidAnswers(db, now, answers)
    requires ruleId in db.rules && db.rules[ruleId].isActive
    requires forall x :: 0 <= x < |db.alerts| && db.alerts[x].rule == Some(ruleId) ==>
      || db.alerts[x].createdAt < now - db.rules[ruleId].cooldownMinutes * (60 * 1_000_000)
      || (db.alerts[x].status != "open" && db.alerts[x].status != "acknowledged")
    requires Watches(db.rules[ruleId].ruleType, m.name)
    requires m in db.metrics && IsFresh(m, db.rules[ruleId].org, m.name, server, now)
    requires forall n :: n in db.metrics && IsFresh(n, db.rules[ruleId].org, m.name, server, now) ==>
      n.timestamp < m.timestamp || (n.timestamp == m.timestamp && n.value == m.value)
    ensures var rule, after := db.rules[ruleId], Step(db, now, Evaluate(answers)).alerts;
      && (forall i, j :: IsNew(db.alerts, after, i, ruleId, server) && IsNew(db.alerts, after, j, ruleId, server)
            ==> i == j)
      && ((exists i :: IsNew(db.alerts, after, i, ruleId, server)) <==>
            rule.threshold.Some? && (
            || ((rule.operator == None || rule.operator == Some("") || rule.operator == Some(">")) &&
                m.value > rule.threshold.value)
            || (rule.operator == Some(">=") && m.value >= rule.threshold.value)
            || (rule.operator == Some("<") && m.value < rule.threshold.value)))
      && (forall i :: IsNew(db.alerts, after, i, ruleId, server) ==>
            after[i] == Alert(rule.org, Some(ruleId), Some(server), rule.severity, "open", rule.ruleType,
                              Some(m.value), now, None, None))
  {
    var rule, answer := db.rules[ruleId], Answer(answers, ruleId);
    PassFor(db, now, answers, ruleId, server);
    WatchedName(rule.ruleType, m.name);
    OutsideCooldown(db, now, ruleId);
    assert IsRuleAnswer(db.metrics, rule, now, answer);
    TriggersIs(rule, m.value);
    hide AlertEngine.Evaluates, ValidAnswers, IsRuleAnswer, LatestRows, Tenancy.Coherent;
    hide Step, Watches, IsNew, Triggers;
    var k := FreshIsPicked(db.metrics, rule, now, answer, m.name, server, m);
    forall p | p in LatestRows(answer) && p.server == Some(server) ensures p.value == m.value {
      PickedIsNewest(db.metrics, rule, now, answer, m.name, server, p);
    }
    DecidedBy(db, now, answers, ruleId, server, m, k);
    forall i | IsNew(db.alerts, Step(db, now, Evaluate(answers)).alerts, i, ruleId, server)
      ensures 0 <= i < |Step(db, now, Evaluate(answers)).alerts|
    {
      IsNewInRange(db.alerts, Step(db, now, Evaluate(answers)).alerts, i, ruleId, server);
    }
  }

  /** A pass adds nothing for a rule that is inactive or of another type, and nothing for a
      server without a sample of the last five minutes. */
  lemma QuietRule(db: Db, now: int, answers: map<nat, seq<Metric>>, ruleId: nat, server: nat)
    requires ValidAnswers(db, now, answers) && ruleId in db.rules
    requires
      || !db.rules[ruleId].isActive
      || db.rules[ruleId].ruleType !in {"cpu_high", "memory_high", "disk_high", "load_high"}
      || forall m :: m in db.metrics && Watches(db.rules[ruleId].ruleType, m.name) ==>
           !IsFresh(m, db.rules[ruleId].org, m.name, server, now)
    ensures !exists i :: IsNew(db.alerts, Step(db, now, Evaluate(answers)).alerts, i, ruleId, server)
  {
    var rule, answer := db.rules[ruleId], Answer(answers, ruleId);
    var after := Step(db, now, Evaluate(answers)).alerts;
    assert IsRuleAnswer(db.metrics, rule, now, answer);
    hide ValidAnswers, IsRuleAnswer, LatestRows, Step;
    forall i | IsNew(db.alerts, after, i, ruleId, server) ensures false {
      EvaluationOf(db, now, answers);
      Cooldown.AddedMeansEvaluates(db, now, answers, db.nextRule, i);
      var p := AddedFromRow(db, now, answers, db.nextRule, i);
      PickedIsNewest(db.metrics, rule, now, answer, MetricName(rule.ruleType).value, server, p);
    }
  }

  lemma EvaluationOf(db: Db, now: int, answers: map<nat, seq<Metric>>)
    ensures Step(db, now, Evaluate(answers)) == EvaluateTo(db, now, answers, db.nextRule)
  {
  }

  // ---------------------------------------------------------------- the heartbeat sweep

  /** An active agent of the server was last heard of more than 300 seconds ago. */
  predicate HasSilentAgent(agents: seq<Agent>, server: nat, now: int)
  {
    exists a :: 0 <= a < |agents| && agents[a].server == server && agents[a].isActive &&
                agents[a].lastHeartbeat.Some? && agents[a].lastHeartbeat.value < now - 300 * 1_000_000
  }

  /** An alert of the server with rule type "agent_offline" is open. */
  predicate HasOpenAlert(alerts: seq<Alert>, server: nat)
  {
    exists x :: 0 <= x < |alerts| && alerts[x].server == Some(server) && alerts[x].ruleType == "agent_offline" &&
                alerts[x].status == "open"
  }

  lemma SilentIsStale(db: Db, now: int, server: nat)
    ensures HasSilentAgent(db.agents, server, now) <==> OfflineAlerts.StaleBelow(db, now, server, |db.agents|)
    ensures HasOpenAlert(db.alerts, server) <==> HasOpenOffline(db.alerts, server)
  {
    if a :| 0 <= a < |db.agents| && db.agents[a].server == server && IsStale(db.agents[a], now) {
      assert db.agents[a].isActive;
    }
    if a :| 0 <= a < |db.agents| && db.agents[a].server == server && db.agents[a].isActive &&
            db.agents[a].lastHeartbeat.Some? && db.agents[a].lastHeartbeat.value < now - 300 * 1_000_000
    {
      assert IsStale(db.agents[a], now);
    }
    if x :| 0 <= x < |db.alerts| && IsOpenOffline(db.alerts[x], server) {
      assert db.alerts[x].status == "open";
    }
    if x :| 0 <= x < |db.alerts| && db.alerts[x].server == Some(server) &&
            db.alerts[x].ruleType == "agent_offline" && db.alerts[x].status == "open"
    {
      assert IsOpenOffline(db.alerts[x], server);
    }
  }

  /** The alerts that a sweep has added, with the agents they are about. */
  lemma {:induction false} SweepAdded(db: Db, now: int, n: nat)
    requires n <= |db.agents|
    ensures var after := SweepTo(db, now, n).alerts;
      && db.alerts <= after
      && (forall i :: |db.alerts| <= i < |after| ==>
            exists a :: 0 <= a < n && after[i] ==
              Alert(db.agents[a].org, None, Some(db.agents[a].server), "high", "open", "agent_offline", None, now,
                    None, None))
      && (forall i, j :: |db.alerts| <= i < j < |after| ==> after[i].server != after[j].server)
  {
    if n > 0 {
      SweepAdded(db, now, n - 1);
      var mid, agent := SweepTo(db, now, n - 1), db.agents[n - 1];
      if RaisesOffline(mid, agent, now) {
        forall i | |db.alerts| <= i < |mid.alerts| ensures mid.alerts[i].server != Some(agent.server) {
          assert !IsOpenOffline(mid.alerts[i], agent.server);
        }
      }
    }
  }

  lemma {:induction false} SweepAddsFor(db: Db, now: int, n: nat, server: nat)
    requires server < |db.servers| && n <= |db.agents|
    ensures OfflineAlerts.AddsAlertFor(db.alerts, SweepTo(db, now, n).alerts, server) <==>
      OfflineAlerts.Raises(db, now, server, n)
  {
    if n > 0 {
      SweepAddsFor(db, now, n - 1, server);
      OfflineAlerts.SweepEffect(db, now, server, n - 1);
      OfflineAlerts.StaleBelowNext(db, now, server, n);
      SweepAdded(db, now, n - 1);
      Registration.SweepFrame(db, now, n - 1);
      var mid, r := SweepTo(db, now, n - 1), SweepTo(db, now, n);
      assert r == SweepAgent(mid, now, db.agents[n - 1]);
      hide OfflineAlerts.StaleBelow, HasOpenOffline, SweepTo, IsStale;
      AddedByAgent(db.alerts, mid, now, db.agents[n - 1], server);
    }
  }

  lemma AddedByAgent(before: seq<Alert>, mid: Db, now: int, agent: Agent, server: nat)
    requires |before| <= |mid.alerts|
    ensures OfflineAlerts.AddsAlertFor(before, SweepAgent(mid, now, agent).alerts, server) <==>
      || OfflineAlerts.AddsAlertFor(before, mid.alerts, server)
      || (RaisesOffline(mid, agent, now) && agent.server == server)
  {
    hide RaisesOffline;
    var after := SweepAgent(mid, now, agent).alerts;
    if RaisesOffline(mid, agent, now) && agent.server == server {
      assert after[|mid.alerts|].server == Some(server);
    } else {
      SameAdded(before, mid.alerts, after, server);
    }
  }

  lemma SameAdded(before: seq<Alert>, mid: seq<Alert>, after: seq<Alert>, server: nat)
    requires |before| <= |mid| && mid <= after
    requires forall x :: |mid| <= x < |after| ==> after[x].server != Some(server)
    ensures OfflineAlerts.AddsAlertFor(before, after, server) <==> OfflineAlerts.AddsAlertFor(before, mid, server)
  {
    if x :| |before| <= x < |mid| && mid[x].server == Some(server) { assert after[x].server == Some(server); }
    if x :| |before| <= x < |after| && after[x].server == Some(server) { assert x < |mid|; }
  }

  /** A sweep adds one alert for a server, and sets its status to "offline", exactly when an
      active agent of it has been silent for more than 300 seconds and no offline alert of it is
      open. It changes nothing else. */
  lemma SweepReports(db: Db, now: int, server: nat)
    requires server < |db.servers|
    ensures var r := Step(db, now, Sweep);
      var reports := HasSilentAgent(db.agents, server, now) && !HasOpenAlert(db.alerts, server);
      && r == db.(servers := r.servers, alerts := r.alerts) && |r.servers| == |db.servers|
      && r.servers[server] ==
           (if reports then db.servers[server].(status := "offline") else db.servers[server])
      && db.alerts <= r.alerts
      && ((exists i :: |db.alerts| <= i < |r.alerts| && r.alerts[i].server == Some(server)) <==> reports)
      && (forall i, j :: |db.alerts| <= i < j < |r.alerts| ==> r.alerts[i].server != r.alerts[j].server)
      && (forall i :: |db.alerts| <= i < |r.alerts| ==>
            exists a :: 0 <= a < |db.agents| && r.alerts[i] ==
              Alert(db.agents[a].org, None, Some(db.agents[a].server), "high", "open", "agent_offline", None, now,
                    None, None))
  {
    SilentIsStale(db, now, server);
    OfflineAlerts.SweepEffect(db, now, server, |db.agents|);
    SweepAddsFor(db, now, |db.agents|, server);
    SweepAdded(db, now, |db.agents|);
  }
}
