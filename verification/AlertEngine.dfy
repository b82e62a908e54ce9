/** The rule engine: which alerts one pass creates, and how far apart the cooldown keeps the
    alerts of one rule over a whole run. */
module AlertEngine {
  import opened Prelude
  import opened Monitor
  import DistinctOn
  import Tenancy

  // ---------------------------------------------------------------- one pass

  /** The rule's query selects every matching row, with all its copies, and no other. */
  lemma {:induction false} FreshRowsExactly(metrics: seq<Metric>, org: nat, name: string, since: int, m: Metric)
    ensures multiset(FreshRows(metrics, org, name, since))[m]
         == if MatchesRule(m, org, name, since) then multiset(metrics)[m] else 0
  {
    if metrics != [] {
      FreshRowsExactly(metrics[1..], org, name, since, m);
      assert metrics == [metrics[0]] + metrics[1..];
    }
  }

  predicate IsFor(a: Alert, ruleId: nat, server: nat)
  {
    a.rule == Some(ruleId) && a.server == Some(server)
  }

  function CountFor(alerts: seq<Alert>, ruleId: nat, server: nat): nat
  {
    if alerts == [] then 0
    else
      CountFor(alerts[..|alerts| - 1], ruleId, server) +
      (if IsFor(alerts[|alerts| - 1], ruleId, server) then 1 else 0)
  }

  lemma {:induction false} CountAppend(a: seq<Alert>, b: seq<Alert>, ruleId: nat, server: nat)
    ensures CountFor(a + b, ruleId, server) == CountFor(a, ruleId, server) + CountFor(b, ruleId, server)
  {
    if b == [] {
      assert a + b == a;
    } else {
      var last := |b| - 1;
      assert (a + b)[..|a + b| - 1] == a + b[..last];
      CountAppend(a, b[..last], ruleId, server);
    }
  }

  /** Some row of the sequence is for the server and triggers the rule. */
  ghost predicate TriggersFor(rule: Rule, latest: seq<Metric>, server: nat)
  {
    exists i :: 0 <= i < |latest| && latest[i].server == Some(server) && Triggers(rule, latest[i].value)
  }

  lemma TriggersForExtends(rule: Rule, latest: seq<Metric>, server: nat)
    requires latest != [] && DistinctOn.Ascending(latest, ServerKey)
    ensures var last := |latest| - 1;
      var hit := latest[last].server == Some(server) && Triggers(rule, latest[last].value);
      && (hit ==> !TriggersFor(rule, latest[..last], server))
      && (TriggersFor(rule, latest, server) <==> TriggersFor(rule, latest[..last], server) || hit)
  {
    var last := |latest| - 1;
    if latest[last].server == Some(server) {
      forall i | 0 <= i < last ensures latest[..last][i].server != Some(server) {
        assert ServerKey(latest[i]) < ServerKey(latest[last]);
      }
    }
    if i :| 0 <= i < last && latest[..last][i].server == Some(server) && Triggers(rule, latest[..last][i].value) {
      assert latest[i].server == Some(server) && Triggers(rule, latest[i].value);
    }
    if i :| 0 <= i < |latest| && latest[i].server == Some(server) && Triggers(rule, latest[i].value) {
      if i < last { assert latest[..last][i].server == Some(server); }
    }
  }

  lemma {:induction false} CountOfRuleAlerts(rule: Rule, ruleId: nat, latest: seq<Metric>, now: int, server: nat)
    requires DistinctOn.Ascending(latest, ServerKey)
    ensures CountFor(RuleAlerts(rule, ruleId, latest, now), ruleId, server) ==
        if TriggersFor(rule, latest, server) then 1 else 0
  {
    if latest != [] {
      var last := |latest| - 1;
      TriggersForExtends(rule, latest, server);
      CountOfRuleAlerts(rule, ruleId, latest[..last], now, server);
      hide TriggersFor, Triggers;
      var tail := if Triggers(rule, latest[last].value) then [RuleAlert(rule, ruleId, latest[last], now)] else [];
      CountAppend(RuleAlerts(rule, ruleId, latest[..last], now), tail, ruleId, server);
    }
  }

  /** `m` is a newest fresh sample of the rule's metric from `server`. */
  ghost predicate IsNewestSample(metrics: seq<Metric>, rule: Rule, now: int, server: nat, m: Metric)
  {
    && MetricName(rule.ruleType).Some?
    && m.server == Some(server)
    && DistinctOn.IsLatest(FreshRows(metrics, rule.org, MetricName(rule.ruleType).value, now - FRESH_WINDOW), m,
                           ServerKey, SampledAt)
  }

  lemma TriggersForNewest(metrics: seq<Metric>, rule: Rule, now: int, answer: seq<Metric>, server: nat)
    requires MetricName(rule.ruleType).Some? && IsRuleAnswer(metrics, rule, now, answer)
    ensures TriggersFor(rule, LatestRows(answer), server) ==>
      exists m :: IsNewestSample(metrics, rule, now, server, m) && Triggers(rule, m.value)
    ensures !TriggersFor(rule, LatestRows(answer), server) ==>
      forall m :: IsNewestSample(metrics, rule, now, server, m) ==>
        exists n :: IsNewestSample(metrics, rule, now, server, n) && !Triggers(rule, n.value)
  {
    var rows := FreshRows(metrics, rule.org, MetricName(rule.ruleType).value, now - FRESH_WINDOW);
    var latest := LatestRows(answer);
    DistinctOn.RunsPickLatest(rows, answer, ServerKey, SampledAt);
    if TriggersFor(rule, latest, server) {
      var i :| 0 <= i < |latest| && latest[i].server == Some(server) && Triggers(rule, latest[i].value);
      assert IsNewestSample(metrics, rule, now, server, latest[i]);
    } else {
      forall m | IsNewestSample(metrics, rule, now, server, m)
        ensures exists n :: IsNewestSample(metrics, rule, now, server, n) && !Triggers(rule, n.value)
      {
        assert DistinctOn.Covers(latest, ServerKey, ServerKey(m));
        var i :| 0 <= i < |latest| && ServerKey(latest[i]) == ServerKey(m);
        assert DistinctOn.IsLatest(rows, latest[i], ServerKey, SampledAt);
        assert IsNewestSample(metrics, rule, now, server, latest[i]);
      }
    }
  }

  /** A rule's evaluation adds alerts of that rule only. */
  lemma {:induction false} RuleAlertsName(rule: Rule, ruleId: nat, latest: seq<Metric>, now: int)
    ensures forall i :: 0 <= i < |RuleAlerts(rule, ruleId, latest, now)| ==>
      && RuleAlerts(rule, ruleId, latest, now)[i].rule == Some(ruleId)
      && RuleAlerts(rule, ruleId, latest, now)[i].createdAt == now
      && RuleAlerts(rule, ruleId, latest, now)[i].status == "open"
      && RuleAlerts(rule, ruleId, latest, now)[i].ruleType == rule.ruleType
  {
    if latest != [] { RuleAlertsName(rule, ruleId, latest[..|latest| - 1], now); }
  }

  /** What a pass has added after the rules below n: alerts of those rules, stamped now. */
  lemma {:induction false} PassAdds(db: Db, now: int, answers: map<nat, seq<Metric>>, n: nat)
    ensures var r := EvaluateTo(db, now, answers, n);
      && |db.alerts| <= |r.alerts| && r.alerts[..|db.alerts|] == db.alerts
      && forall i :: |db.alerts| <= i < |r.alerts| ==>
           r.alerts[i].rule.Some? && r.alerts[i].rule.value < n && r.alerts[i].createdAt == now &&
           r.alerts[i].status == "open" && MetricName(r.alerts[i].ruleType).Some?
  {
    if n > 0 {
      PassAdds(db, now, answers, n - 1);
      if n - 1 in db.rules {
        RuleAlertsName(db.rules[n - 1], n - 1, LatestRows(Answer(answers, n - 1)), now);
      }
    }
  }

  lemma CooldownUnaffected(db: Db, now: int, answers: map<nat, seq<Metric>>, n: nat, ruleId: nat, since: int)
    requires n <= ruleId
    ensures InCooldown(EvaluateTo(db, now, answers, n).alerts, ruleId, since) <==> InCooldown(db.alerts, ruleId, since)
  {
    PassAdds(db, now, answers, n);
    var alerts := EvaluateTo(db, now, answers, n).alerts;
    if i :| 0 <= i < |db.alerts| && HoldsCooldown(db.alerts[i], ruleId, since) {
      assert alerts[..|db.alerts|][i] == alerts[i];
    }
    if i :| 0 <= i < |alerts| && HoldsCooldown(alerts[i], ruleId, since) {
      assert alerts[..|db.alerts|][i] == alerts[i];
    }
  }

  ghost predicate Evaluates(db: Db, now: int, ruleId: nat)
  {
    && ruleId in db.rules && db.rules[ruleId].isActive && MetricName(db.rules[ruleId].ruleType).Some?
    && !InCooldown(db.alerts, ruleId, CooldownStart(db.rules[ruleId], now))
  }

  lemma CountOfRule(db: Db, now: int, answers: map<nat, seq<Metric>>, n: nat, ruleId: nat, server: nat)
    requires ValidAnswers(db, now, answers) && n in db.rules && db.rules[n].isActive
    ensures var alerts := EvaluateTo(db, now, answers, n).alerts;
      CountFor(NewRuleAlerts(alerts, db.rules[n], n, Answer(answers, n), now), ruleId, server) ==
      if n == ruleId && Evaluates(db, now, n) && TriggersFor(db.rules[n], LatestRows(Answer(answers, n)), server)
      then 1 else 0
  {
    var rule, answer := db.rules[n], Answer(answers, n);
    var alerts := EvaluateTo(db, now, answers, n).alerts;
    CooldownUnaffected(db, now, answers, n, n, CooldownStart(rule, now));
    assert IsRuleAnswer(db.metrics, rule, now, answer);
    if n != ruleId {
      RuleAlertsName(rule, n, LatestRows(answer), now);
      NoneFor(NewRuleAlerts(alerts, rule, n, answer, now), ruleId, server);
    } else if Evaluates(db, now, n) {
      DistinctOn.RunsAscend(answer, ServerKey, SampledAt);
      CountOfRuleAlerts(rule, n, LatestRows(answer), now, server);
    }
  }

  lemma {:induction false} NoneFor(alerts: seq<Alert>, ruleId: nat, server: nat)
    requires forall i :: 0 <= i < |alerts| ==> alerts[i].rule != Some(ruleId)
    ensures CountFor(alerts, ruleId, server) == 0
  {
    if alerts != [] { NoneFor(alerts[..|alerts| - 1], ruleId, server); }
  }

  lemma {:induction false} CountAfter(db: Db, now: int, answers: map<nat, seq<Metric>>, n: nat, ruleId: nat,
                                      server: nat)
    requires ValidAnswers(db, now, answers)
    ensures CountFor(EvaluateTo(db, now, answers, n).alerts, ruleId, server) == CountFor(db.alerts, ruleId, server) +
      if ruleId < n && Evaluates(db, now, ruleId) &&
         TriggersFor(db.rules[ruleId], LatestRows(Answer(answers, ruleId)), server)
      then 1 else 0
  {
    hide CountFor, TriggersFor, InCooldown, NewRuleAlerts, ValidAnswers, LatestRows;
    if n > 0 {
      CountAfter(db, now, answers, n - 1, ruleId, server);
      var mid := EvaluateTo(db, now, answers, n - 1);
      assert mid == db.(alerts := mid.alerts);
      if n - 1 in db.rules && db.rules[n - 1].isActive {
        CountOfRule(db, now, answers, n - 1, ruleId, server);
        var tail := NewRuleAlerts(mid.alerts, db.rules[n - 1], n - 1, Answer(answers, n - 1), now);
        CountAppend(mid.alerts, tail, ruleId, server);
      }
    }
  }

  /** The alerts a pass adds for a rule and a server: at most one, none while the rule is
      inactive, unsupported or in cooldown, and otherwise one exactly when the newest fresh
      sample of that server triggers. Samples that tie for newest may disagree, and then
      the database's choice decides. */
  lemma PassCreatesExactly(db: Db, now: int, answers: map<nat, seq<Metric>>, ruleId: nat, server: nat)
    requires Tenancy.Coherent(db) && ValidAnswers(db, now, answers)
    ensures var after := EvaluateAll(db, now, answers).alerts;
      var added := CountFor(after, ruleId, server) - CountFor(db.alerts, ruleId, server);
      && 0 <= added <= 1
      && (!Evaluates(db, now, ruleId) ==> added == 0)
      && (added == 1 ==>
            (Evaluates(db, now, ruleId) &&
             exists m :: IsNewestSample(db.metrics, db.rules[ruleId], now, server, m) &&
                         Triggers(db.rules[ruleId], m.value)))
      && (Evaluates(db, now, ruleId) && added == 0 ==>
            forall m :: IsNewestSample(db.metrics, db.rules[ruleId], now, server, m) ==>
              exists n :: IsNewestSample(db.metrics, db.rules[ruleId], now, server, n) &&
                          !Triggers(db.rules[ruleId], n.value))
  {
    CountAfter(db, now, answers, db.nextRule, ruleId, server);
    if Evaluates(db, now, ruleId) {
      assert IsRuleAnswer(db.metrics, db.rules[ruleId], now, Answer(answers, ruleId));
      TriggersForNewest(db.metrics, db.rules[ruleId], now, Answer(answers, ruleId), server);
    }
  }
}
