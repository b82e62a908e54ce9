/** Cooldown over whole runs: alerts of one rule are spaced, and so there are few of them. */
module Cooldown {
  import opened Prelude
  import opened Monitor
  import Tenancy
  import AlertEngine

  // ---------------------------------------------------------------- alerts persist

  /** The sweep appends offline alerts and changes no other. */
  lemma {:induction false} SweepAdds(db: Db, now: int, n: nat)
    requires n <= |db.agents|
    ensures var r := SweepTo(db, now, n);
      && |db.alerts| <= |r.alerts| && r.alerts[..|db.alerts|] == db.alerts
      && forall i :: |db.alerts| <= i < |r.alerts| ==>
           r.alerts[i].rule.None? && r.alerts[i].ruleType == "agent_offline" && r.alerts[i].status == "open" &&
           r.alerts[i].createdAt == now
  {
    if n > 0 { SweepAdds(db, now, n - 1); }
  }

  /** The fields of an alert that no operation changes. */
  predicate SameAlert(a: Alert, b: Alert)
  {
    a.org == b.org && a.server == b.server && a.severity == b.severity && a.ruleType == b.ruleType &&
    a.triggerValue == b.triggerValue && a.createdAt == b.createdAt
  }

  /** `b` still names the rule of `a`, unless that rule is gone. */
  predicate SameRule(rules: map<nat, Rule>, a: Alert, b: Alert)
  {
    b.rule == a.rule || (b.rule.None? && a.rule.Some? && a.rule.value !in rules)
  }

  lemma StepKeepsAlert(db: Db, now: int, e: Event, x: nat)
    requires x < |db.alerts|
    ensures x < |Step(db, now, e).alerts|
    ensures SameAlert(db.alerts[x], Step(db, now, e).alerts[x])
    ensures SameRule(Step(db, now, e).rules, db.alerts[x], Step(db, now, e).alerts[x])
    ensures !e.SetAlertStatus? ==> Step(db, now, e).alerts[x].status == db.alerts[x].status
  {
    AlertFrame(db, now, e);
    if e.Sweep? {
      SweepAdds(db, now, |db.agents|);
      assert SweepAll(db, now).alerts[..|db.alerts|][x] == SweepAll(db, now).alerts[x];
    } else if e.Evaluate? {
      AlertEngine.PassAdds(db, now, e.answers, db.nextRule);
      assert EvaluateAll(db, now, e.answers).alerts[..|db.alerts|][x] == EvaluateAll(db, now, e.answers).alerts[x];
    }
  }

  /** Rule ids are never reused. */
  lemma StepKeepsGone(db: Db, now: int, e: Event, ruleId: nat)
    requires ruleId !in db.rules && ruleId < db.nextRule
    ensures ruleId !in Step(db, now, e).rules && ruleId < Step(db, now, e).nextRule
  {
    RuleFrame(db, now, e);
  }

  lemma StepKeepsRuleCount(db: Db, now: int, e: Event)
    ensures db.nextRule <= Step(db, now, e).nextRule
  {
    RuleFrame(db, now, e);
  }

  lemma SameRuleTrans(db: Db, now: int, e: Event, a: Alert, x: nat)
    requires Tenancy.Coherent(db) && x < |db.alerts|
    requires SameRule(db.rules, a, db.alerts[x]) && (a.rule.Some? ==> a.rule.value < db.nextRule)
    ensures x < |Step(db, now, e).alerts| && SameRule(Step(db, now, e).rules, a, Step(db, now, e).alerts[x])
  {
    hide Step;
    StepKeepsAlert(db, now, e, x);
    if a.rule.Some? && a.rule.value !in db.rules {
      StepKeepsGone(db, now, e, a.rule.value);
    }
  }

  lemma {:induction false} AlertsStay(run: seq<Timed>, i: nat, j: nat, x: nat)
    requires i <= j <= |run| && x < |StateAt(run, i).alerts|
    ensures x < |StateAt(run, j).alerts|
    ensures SameAlert(StateAt(run, i).alerts[x], StateAt(run, j).alerts[x])
    ensures StateAt(run, i).nextRule <= StateAt(run, j).nextRule
  {
    hide Step;
    if i < j {
      AlertsStay(run, i, j - 1, x);
      StepKeepsAlert(StateAt(run, j - 1), run[j - 1].now, run[j - 1].event, x);
      StepKeepsRuleCount(StateAt(run, j - 1), run[j - 1].now, run[j - 1].event);
    }
  }

  lemma {:induction false} RuleStays(run: seq<Timed>, i: nat, j: nat, x: nat)
    requires IsRun(run) && i <= j <= |run| && x < |StateAt(run, i).alerts|
    ensures x < |StateAt(run, j).alerts|
    ensures SameRule(StateAt(run, j).rules, StateAt(run, i).alerts[x], StateAt(run, j).alerts[x])
  {
    hide Step, Tenancy.Coherent, SameRule, IsRun;
    AlertsStay(run, i, j, x);
    if i < j {
      RuleStays(run, i, j - 1, x);
      AlertsStay(run, i, j - 1, x);
      Tenancy.ReachableCoherent(run, i);
      Tenancy.ReachableCoherent(run, j - 1);
      RuleIsOld(StateAt(run, i), x);
      SameRuleTrans(StateAt(run, j - 1), run[j - 1].now, run[j - 1].event, StateAt(run, i).alerts[x], x);
    } else {
      SameRuleRefl(StateAt(run, i).rules, StateAt(run, i).alerts[x]);
    }
  }

  lemma SameRuleRefl(rules: map<nat, Rule>, a: Alert)
    ensures SameRule(rules, a, a)
  {
  }

  /** Alerts are never deleted, keep what they were created with, and lose their rule only
      when the rule itself is deleted. */
  lemma AlertsPersist(run: seq<Timed>, i: nat, j: nat, x: nat)
    requires IsRun(run) && i <= j <= |run| && x < |StateAt(run, i).alerts|
    ensures x < |StateAt(run, j).alerts|
    ensures SameAlert(StateAt(run, i).alerts[x], StateAt(run, j).alerts[x])
    ensures SameRule(StateAt(run, j).rules, StateAt(run, i).alerts[x], StateAt(run, j).alerts[x])
  {
    AlertsStay(run, i, j, x);
    RuleStays(run, i, j, x);
  }

  lemma RuleIsOld(db: Db, x: nat)
    requires Tenancy.Coherent(db) && x < |db.alerts|
    ensures db.alerts[x].rule.Some? ==> db.alerts[x].rule.value in db.rules && db.alerts[x].rule.value < db.nextRule
  {
    assert Tenancy.NamesRule(db.rules, db.alerts[x]);
  }

  // ---------------------------------------------------------------- spacing

  /** Event i of the run creates alert x, for rule `ruleId`. */
  ghost predicate Creates(run: seq<Timed>, i: nat, x: nat, ruleId: nat)
  {
    && i < |run|
    && |StateAt(run, i).alerts| <= x < |StateAt(run, i + 1).alerts|
    && StateAt(run, i + 1).alerts[x].rule == Some(ruleId)
  }

  lemma {:induction false} AddedMeansEvaluates(db: Db, now: int, answers: map<nat, seq<Metric>>, n: nat, x: nat)
    requires |db.alerts| <= x < |EvaluateTo(db, now, answers, n).alerts|
    ensures var a := EvaluateTo(db, now, answers, n).alerts[x];
      a.rule.Some? && a.rule.value < n && AlertEngine.Evaluates(db, now, a.rule.value)
  {
    if n > 0 {
      var mid, r := EvaluateTo(db, now, answers, n - 1), EvaluateTo(db, now, answers, n);
      assert mid == db.(alerts := mid.alerts);
      if x < |mid.alerts| {
        AddedMeansEvaluates(db, now, answers, n - 1, x);
        assert r.alerts[x] == mid.alerts[x];
      } else {
        var rule := db.rules[n - 1];
        AlertEngine.CooldownUnaffected(db, now, answers, n - 1, n - 1, CooldownStart(rule, now));
        AlertEngine.RuleAlertsName(rule, n - 1, LatestRows(Answer(answers, n - 1)), now);
        assert r.alerts[x] == RuleAlerts(rule, n - 1, LatestRows(Answer(answers, n - 1)), now)[x - |mid.alerts|];
      }
    }
  }

  /** Only a pass creates an alert that names a rule, and it does so outside cooldown: every other
      alert of the rule is older or neither open nor acknowledged. */
  lemma CreatedOutsideCooldown(db: Db, now: int, e: Event, x: nat)
    requires |db.alerts| <= x < |Step(db, now, e).alerts| && Step(db, now, e).alerts[x].rule.Some?
    ensures var a := Step(db, now, e).alerts[x];
      e.Evaluate? && AlertEngine.Evaluates(db, now, a.rule.value) && a.createdAt == now && a.status == "open"
    ensures var a := Step(db, now, e).alerts[x];
      forall y :: 0 <= y < |db.alerts| && db.alerts[y].rule == a.rule ==>
        || now - db.alerts[y].createdAt > db.rules[a.rule.value].cooldownMinutes * (60 * 1_000_000)
        || (db.alerts[y].status != "open" && db.alerts[y].status != "acknowledged")
  {
    AlertFrame(db, now, e);
    if e.Sweep? {
      SweepAdds(db, now, |db.agents|);
    } else if e.Evaluate? {
      AddedMeansEvaluates(db, now, e.answers, db.nextRule, x);
      AlertEngine.PassAdds(db, now, e.answers, db.nextRule);
    }
  }

  lemma CreatesOutsideCooldown(run: seq<Timed>, i: nat, x: nat, ruleId: nat)
    requires Creates(run, i, x, ruleId)
    ensures AlertEngine.Evaluates(StateAt(run, i), run[i].now, ruleId)
    ensures StateAt(run, i + 1).alerts[x].createdAt == run[i].now
  {
    hide Step;
    CreatedOutsideCooldown(StateAt(run, i), run[i].now, run[i].event, x);
  }

  lemma NotHeld(db: Db, now: int, ruleId: nat, x: nat)
    requires AlertEngine.Evaluates(db, now, ruleId) && x < |db.alerts| && db.alerts[x].rule == Some(ruleId)
    ensures now - db.alerts[x].createdAt > db.rules[ruleId].cooldownMinutes * MINUTE || !IsLive(db.alerts[x].status)
  {
    assert !HoldsCooldown(db.alerts[x], ruleId, CooldownStart(db.rules[ruleId], now));
  }

  /** If two passes both create alerts for a rule, then the second comes more than the cooldown
      after the first, or every alert of the first has left {open, acknowledged} by then. The
      cooldown that counts is the one the rule has at the second pass. */
  lemma CooldownSpacing(run: seq<Timed>, i: nat, j: nat, x: nat, y: nat, ruleId: nat)
    requires IsRun(run) && i < j && Creates(run, i, x, ruleId) && Creates(run, j, y, ruleId)
    ensures ruleId in StateAt(run, j).rules && x < |StateAt(run, j).alerts|
    ensures run[j].now - run[i].now > StateAt(run, j).rules[ruleId].cooldownMinutes * MINUTE
            || (StateAt(run, j).alerts[x].status != "open" && StateAt(run, j).alerts[x].status != "acknowledged")
  {
    hide Step, Tenancy.Coherent, IsRun;
    CreatesOutsideCooldown(run, i, x, ruleId);
    CreatesOutsideCooldown(run, j, y, ruleId);
    AlertsPersist(run, i + 1, j, x);
    assert StateAt(run, j).alerts[x].rule == Some(ruleId);
    NotHeld(StateAt(run, j), run[j].now, ruleId, x);
  }

  // ---------------------------------------------------------------- rate bound

  predicate Settles(db: Db, e: Event, ruleId: nat)
  {
    e.SetAlertStatus? && e.alert < |db.alerts| && db.alerts[e.alert].rule == Some(ruleId) &&
    e.status != "open" && e.status != "acknowledged"
  }

  /** At event k the rule's cooldown is `minutes` if it exists, and the event is no status
      update that takes one of its alerts out of {open, acknowledged}. */
  ghost predicate SteadyAt(run: seq<Timed>, k: nat, ruleId: nat, minutes: nat)
    requires k < |run|
  {
    && (ruleId in StateAt(run, k).rules ==> StateAt(run, k).rules[ruleId].cooldownMinutes == minutes)
    && !Settles(StateAt(run, k), run[k].event, ruleId)
  }

  /** Every event in the window is steady; what happens before and after does not matter. */
  ghost predicate Steady(run: seq<Timed>, ruleId: nat, minutes: nat, from: int, to: int)
  {
    forall k :: 0 <= k < |run| && from <= run[k].now <= to ==> SteadyAt(run, k, ruleId, minutes)
  }

  /** One pass creates at most one alert per rule and server. */
  lemma OnePerPass(db: Db, now: int, e: Event, ruleId: nat, server: nat, x: nat, y: nat)
    requires Tenancy.Coherent(db) && ValidEvent(db, now, e)
    requires |db.alerts| <= x < y < |Step(db, now, e).alerts|
    requires AlertEngine.IsFor(Step(db, now, e).alerts[x], ruleId, server)
    ensures !AlertEngine.IsFor(Step(db, now, e).alerts[y], ruleId, server)
  {
    CreatedOutsideCooldown(db, now, e, x);
    AlertEngine.PassCreatesExactly(db, now, e.answers, ruleId, server);
    AlertEngine.PassAdds(db, now, e.answers, db.nextRule);
    var alerts := EvaluateAll(db, now, e.answers).alerts;
    hide EvaluateAll;
    if AlertEngine.IsFor(alerts[y], ruleId, server) {
      CountAtLeast(alerts, |db.alerts|, x, y, ruleId, server);
    }
  }

  lemma {:induction false} CountGrows(alerts: seq<Alert>, n: nat, m: nat, ruleId: nat, server: nat)
    requires n <= m <= |alerts|
    ensures AlertEngine.CountFor(alerts[..n], ruleId, server) <= AlertEngine.CountFor(alerts[..m], ruleId, server)
  {
    if n < m {
      CountGrows(alerts, n, m - 1, ruleId, server);
      assert alerts[..m][..m - 1] == alerts[..m - 1];
    }
  }

  lemma CountNext(alerts: seq<Alert>, x: nat, ruleId: nat, server: nat)
    requires x < |alerts| && AlertEngine.IsFor(alerts[x], ruleId, server)
    ensures AlertEngine.CountFor(alerts[..x + 1], ruleId, server) ==
        AlertEngine.CountFor(alerts[..x], ruleId, server) + 1
  {
    assert alerts[..x + 1][..x] == alerts[..x];
  }

  lemma CountAtLeast(alerts: seq<Alert>, n: nat, x: nat, y: nat, ruleId: nat, server: nat)
    requires n <= x < y < |alerts|
    requires AlertEngine.IsFor(alerts[x], ruleId, server) && AlertEngine.IsFor(alerts[y], ruleId, server)
    ensures AlertEngine.CountFor(alerts, ruleId, server) >= AlertEngine.CountFor(alerts[..n], ruleId, server) + 2
  {
    hide AlertEngine.CountFor;
    CountGrows(alerts, n, x, ruleId, server);
    CountNext(alerts, x, ruleId, server);
    CountGrows(alerts, x + 1, y, ruleId, server);
    CountNext(alerts, y, ruleId, server);
    CountGrows(alerts, y + 1, |alerts|, ruleId, server);
    assert alerts[..|alerts|] == alerts;
  }

  predicate InWindow(a: Alert, ruleId: nat, server: nat, from: int, to: int)
  {
    AlertEngine.IsFor(a, ruleId, server) && from <= a.createdAt <= to
  }

  function CountInWindow(alerts: seq<Alert>, ruleId: nat, server: nat, from: int, to: int): nat
  {
    if alerts == [] then 0
    else
      CountInWindow(alerts[..|alerts| - 1], ruleId, server, from, to) +
      (if InWindow(alerts[|alerts| - 1], ruleId, server, from, to) then 1 else 0)
  }

  /** The alerts of the window for the rule and server are more than `gap` apart. */
  ghost predicate Spaced(alerts: seq<Alert>, ruleId: nat, server: nat, from: int, to: int, gap: int)
  {
    forall x, y :: 0 <= x < y < |alerts| && InWindow(alerts[x], ruleId, server, from, to)
                   && InWindow(alerts[y], ruleId, server, from, to)
      ==> alerts[y].createdAt - alerts[x].createdAt > gap
  }

  /** Spaced alerts in a window: the latest of n lies at least (n - 1) * gap after its start. */
  lemma {:induction false} SpacedCount(alerts: seq<Alert>, ruleId: nat, server: nat, from: int, to: int, gap: nat)
    returns (latest: nat)
    requires Spaced(alerts, ruleId, server, from, to, gap)
    ensures var n := CountInWindow(alerts, ruleId, server, from, to);
      n > 0 ==>
        && latest < |alerts| && InWindow(alerts[latest], ruleId, server, from, to)
        && (n - 1) * gap <= alerts[latest].createdAt - from
  {
    latest := 0;
    if alerts != [] {
      var last := |alerts| - 1;
      latest := SpacedCount(alerts[..last], ruleId, server, from, to, gap);
      if InWindow(alerts[last], ruleId, server, from, to) {
        var n := CountInWindow(alerts[..last], ruleId, server, from, to);
        if n > 0 {
          assert alerts[last].createdAt - alerts[latest].createdAt > gap;
          assert n * gap == (n - 1) * gap + gap;
        }
        latest := last;
      }
    }
  }

  lemma SpacedRate(alerts: seq<Alert>, ruleId: nat, server: nat, from: int, to: int, gap: nat)
    requires Spaced(alerts, ruleId, server, from, to, gap) && gap > 0 && from <= to
    ensures CountInWindow(alerts, ruleId, server, from, to) <= 1 + (to - from) / gap
  {
    var latest := SpacedCount(alerts, ruleId, server, from, to, gap);
    var n := CountInWindow(alerts, ruleId, server, from, to);
    hide CountInWindow, Spaced;
    if n > 1 {
      FloorBound(n - 1, to - from, gap);
    }
  }

  lemma FloorBound(k: nat, w: nat, gap: nat)
    requires gap > 0 && k * gap <= w
    ensures k <= w / gap
  {
    var q := w / gap;
    assert w == q * gap + w % gap;
    var x := k - q - 1;
    assert x * gap == k * gap - q * gap - gap;
    ProductSign(x, gap);
  }

  lemma ProductSign(x: int, y: int)
    ensures x >= 0 && y >= 0 ==> x * y >= 0
  {
  }

  /** The event that created an alert. */
  lemma {:induction false} CreationEvent(run: seq<Timed>, n: nat, x: nat) returns (k: nat)
    requires n <= |run| && x < |StateAt(run, n).alerts|
    ensures k < n && |StateAt(run, k).alerts| <= x < |StateAt(run, k + 1).alerts|
  {
    hide Step;
    if x < |StateAt(run, n - 1).alerts| {
      k := CreationEvent(run, n - 1, x);
    } else {
      k := n - 1;
    }
  }

  // An alert that names the rule at the end named it from its creation on.
  lemma NamedFromCreation(run: seq<Timed>, x: nat, ruleId: nat) returns (k: nat)
    requires IsRun(run) && x < |StateAt(run, |run|).alerts| && StateAt(run, |run|).alerts[x].rule == Some(ruleId)
    ensures Creates(run, k, x, ruleId) && StateAt(run, |run|).alerts[x].createdAt == run[k].now
    ensures StateAt(run, k + 1).alerts[x].status == "open"
  {
    hide Step, IsRun;
    k := CreationEvent(run, |run|, x);
    AlertsPersist(run, k + 1, |run|, x);
    CreatedOutsideCooldown(StateAt(run, k), run[k].now, run[k].event, x);
  }

  ghost predicate Unsettled(run: seq<Timed>, k: nat, ruleId: nat)
    requires k < |run|
  {
    !Settles(StateAt(run, k), run[k].event, ruleId)
  }

  lemma {:induction false} StaysLive(run: seq<Timed>, i: nat, j: nat, x: nat, ruleId: nat)
    requires IsRun(run) && i <= j <= |run| && x < |StateAt(run, i).alerts| && IsLive(StateAt(run, i).alerts[x].status)
    requires x < |StateAt(run, |run|).alerts| && StateAt(run, |run|).alerts[x].rule == Some(ruleId)
    requires forall k :: i <= k < j ==> Unsettled(run, k, ruleId)
    ensures x < |StateAt(run, j).alerts| && IsLive(StateAt(run, j).alerts[x].status)
  {
    hide Step, IsRun, IsLive, Settles;
    if i < j {
      StaysLive(run, i, j - 1, x, ruleId);
      assert Unsettled(run, j - 1, ruleId);
      RuleStays(run, j - 1, |run|, x);
      LiveStep(StateAt(run, j - 1), run[j - 1].now, run[j - 1].event, x, ruleId);
    }
  }

  lemma LiveStep(db: Db, now: int, e: Event, x: nat, ruleId: nat)
    requires x < |db.alerts| && IsLive(db.alerts[x].status) && db.alerts[x].rule == Some(ruleId)
    requires !Settles(db, e, ruleId)
    ensures x < |Step(db, now, e).alerts| && IsLive(Step(db, now, e).alerts[x].status)
  {
    StepKeepsAlert(db, now, e, x);
    if !e.SetAlertStatus? { hide Step; }
  }

  // Two alerts that a run still shows for one rule and server come from different events,
  // the earlier one from the earlier event.
  lemma CreationOrder(run: seq<Timed>, i: nat, j: nat, x: nat, y: nat, ruleId: nat, server: nat)
    requires IsRun(run) && x < y && Creates(run, i, x, ruleId) && Creates(run, j, y, ruleId)
    requires StateAt(run, i + 1).alerts[x].server == Some(server)
    requires StateAt(run, j + 1).alerts[y].server == Some(server)
    ensures i < j
  {
    hide Step, Tenancy.Coherent, ValidEvent;
    if j < i {
      AlertsStay(run, j + 1, i, y);
    } else if i == j {
      assert ValidAt(run, i);
      Tenancy.ReachableCoherent(run, i);
      OnePerPass(StateAt(run, i), run[i].now, run[i].event, ruleId, server, x, y);
    }
  }

  // In a steady window an alert is still live at any later event of the window.
  lemma LiveInWindow(run: seq<Timed>, i: nat, j: nat, x: nat, ruleId: nat, minutes: nat, from: int, to: int)
    requires IsRun(run) && Steady(run, ruleId, minutes, from, to)
    requires i < j < |run| && from <= run[i].now && run[j].now <= to
    requires x < |StateAt(run, i + 1).alerts| && StateAt(run, i + 1).alerts[x].status == "open"
    requires x < |StateAt(run, |run|).alerts| && StateAt(run, |run|).alerts[x].rule == Some(ruleId)
    ensures x < |StateAt(run, j).alerts| && IsLive(StateAt(run, j).alerts[x].status)
  {
    hide Step, StateAt, Settles, ValidAt;
    forall k | i + 1 <= k < j ensures Unsettled(run, k, ruleId) { assert SteadyAt(run, k, ruleId, minutes); }
    StaysLive(run, i + 1, j, x, ruleId);
  }

  lemma WindowSpaced(run: seq<Timed>, ruleId: nat, server: nat, minutes: nat, from: int, to: int, x: nat, y: nat)
    requires IsRun(run) && Steady(run, ruleId, minutes, from, to) && x < y < |StateAt(run, |run|).alerts|
    requires InWindow(StateAt(run, |run|).alerts[x], ruleId, server, from, to)
    requires InWindow(StateAt(run, |run|).alerts[y], ruleId, server, from, to)
    ensures StateAt(run, |run|).alerts[y].createdAt - StateAt(run, |run|).alerts[x].createdAt > minutes * MINUTE
  {
    hide Step, StateAt, IsRun, Settles, SameRule;
    var i := NamedFromCreation(run, x, ruleId);
    var j := NamedFromCreation(run, y, ruleId);
    AlertsStay(run, i + 1, |run|, x);
    AlertsStay(run, j + 1, |run|, y);
    CreationOrder(run, i, j, x, y, ruleId, server);
    CooldownSpacing(run, i, j, x, y, ruleId);
    assert SteadyAt(run, j, ruleId, minutes);
    LiveInWindow(run, i, j, x, ruleId, minutes, from, to);
  }

  /** A window [from, to] in which the rule's cooldown is constant and positive and none of its
      alerts is settled holds at most 1 + (to - from) / cooldown alerts per rule and server. */
  lemma CooldownRate(run: seq<Timed>, ruleId: nat, server: nat, minutes: nat, from: int, to: int)
    requires IsRun(run) && Steady(run, ruleId, minutes, from, to) && minutes > 0 && from <= to
    ensures CountInWindow(StateAt(run, |run|).alerts, ruleId, server, from, to) <= 1 + (to - from) / (minutes * MINUTE)
  {
    hide Step, IsRun, Steady, InWindow, CountInWindow;
    var alerts := StateAt(run, |run|).alerts;
    forall x, y | 0 <= x < y < |alerts| && InWindow(alerts[x], ruleId, server, from, to)
                  && InWindow(alerts[y], ruleId, server, from, to)
      ensures alerts[y].createdAt - alerts[x].createdAt > minutes * MINUTE
    {
      WindowSpaced(run, ruleId, server, minutes, from, to, x, y);
    }
    SpacedRate(alerts, ruleId, server, from, to, minutes * MINUTE);
  }
}
