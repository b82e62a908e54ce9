/** The timed protocol between an agent that sends heartbeats and the sweep that looks for
    missing ones: no false offline alert, and detection within a bound. */
module Liveness {
  import opened Prelude
  import opened Monitor
  import AgentLoop
  import Registration
  import OfflineAlerts

  // ---------------------------------------------------------------- the server's view of one agent

  /** Event i writes the heartbeat stamp of agent a: an accepted heartbeat, or a registration
      of its server. */
  predicate Touches(db: Db, now: int, e: Event, a: nat)
    requires a < |db.agents|
  {
    || (e.Heartbeat? && AgentByToken(db.agents, e.token) == Some(a))
    || Reregisters(db, now, e, a)
  }

  predicate Reregisters(db: Db, now: int, e: Event, a: nat)
    requires a < |db.agents|
  {
    Registration.Succeeds(db, now, e) && Registration.RegisteredServer(db, now, e) == db.agents[a].server
  }

  /** What one event does to an agent row. */
  lemma AgentRow(db: Db, now: int, e: Event, a: nat)
    requires Registration.UniqueAgents(db.agents) && a < |db.agents|
    ensures a < |Step(db, now, e).agents| && Step(db, now, e).agents[a].server == db.agents[a].server
    ensures !Touches(db, now, e, a) ==> Step(db, now, e).agents[a] == db.agents[a]
    ensures Touches(db, now, e, a) ==> Step(db, now, e).agents[a].lastHeartbeat == Some(now)
    ensures !Reregisters(db, now, e, a) ==> Step(db, now, e).agents[a].token == db.agents[a].token
  {
    AgentFrame(db, now, e);
    if e.Register? {
      var t := SpendableToken(db, now, e.regToken);
      if t.Some? {
        var own := AgentOfServer(db.agents, TargetServer(db, db.regTokens[t.value].org, e.hostname));
      }
    } else if e.Heartbeat? {
      var found := AgentByToken(db.agents, e.token);
    } else {
      hide Step;
    }
  }

  /** Stamps lie in the past. */
  ghost predicate StampedBy(agents: seq<Agent>, clock: int)
  {
    forall a :: 0 <= a < |agents| ==> agents[a].lastHeartbeat.Some? && agents[a].lastHeartbeat.value <= clock
  }

  lemma StepStamped(db: Db, now: int, e: Event, before: int)
    requires StampedBy(db.agents, before) && before <= now
    ensures StampedBy(Step(db, now, e).agents, now)
  {
    AgentFrame(db, now, e);
    if !e.Register? && !e.Heartbeat? {
      hide Step;
    }
  }

  lemma {:induction false} ReachableStamped(run: seq<Timed>, n: nat, clock: int)
    requires IsRun(run) && n <= |run| && (n > 0 ==> run[n - 1].now <= clock)
    ensures StampedBy(StateAt(run, n).agents, clock)
  {
    hide Step;
    if n > 0 {
      ReachableStamped(run, n - 1, run[n - 1].now);
      StepStamped(StateAt(run, n - 1), run[n - 1].now, run[n - 1].event, run[n - 1].now);
    }
  }

  ghost predicate NotReregistered(run: seq<Timed>, e: nat, a: nat)
    requires e < |run|
  {
    a < |StateAt(run, e).agents| && !Reregisters(StateAt(run, e), run[e].now, run[e].event, a)
  }

  /** No registration of agent a's server happens in [i, j). */
  ghost predicate Undisturbed(run: seq<Timed>, i: nat, j: nat, a: nat)
    requires j <= |run|
  {
    forall e :: i <= e < j ==> NotReregistered(run, e, a)
  }

  lemma {:induction false} StaysRegistered(run: seq<Timed>, i: nat, j: nat, a: nat)
    requires IsRun(run) && i <= j <= |run| && a < |StateAt(run, i).agents| && Undisturbed(run, i, j, a)
    ensures a < |StateAt(run, j).agents|
    ensures StateAt(run, j).agents[a].token == StateAt(run, i).agents[a].token
    ensures StateAt(run, j).agents[a].server == StateAt(run, i).agents[a].server
  {
    hide Step, Registration.Sound, ValidAt, Reregisters;
    if i < j {
      StaysRegistered(run, i, j - 1, a);
      assert NotReregistered(run, j - 1, a);
      UniqueAgentsAt(run, j - 1);
      AgentRow(StateAt(run, j - 1), run[j - 1].now, run[j - 1].event, a);
    }
  }

  lemma UniqueAgentsAt(run: seq<Timed>, n: nat)
    requires IsRun(run) && n <= |run|
    ensures Registration.UniqueAgents(StateAt(run, n).agents)
  {
    Registration.ReachableSound(run, n);
    hide StateAt;
  }

  /** The stamp of an agent never goes back. */
  lemma {:induction false} StampGrows(run: seq<Timed>, i: nat, j: nat, a: nat)
    requires IsRun(run) && i <= j <= |run| && a < |StateAt(run, i).agents|
    ensures a < |StateAt(run, j).agents|
    ensures StateAt(run, i).agents[a].lastHeartbeat.Some? && StateAt(run, j).agents[a].lastHeartbeat.Some?
    ensures StateAt(run, i).agents[a].lastHeartbeat.value <= StateAt(run, j).agents[a].lastHeartbeat.value
  {
    hide Step, ValidAt, Registration.Sound, Touches, Reregisters;
    ReachableStamped(run, i, if i > 0 then run[i - 1].now else 0);
    if i < j {
      StampGrows(run, i, j - 1, a);
      UniqueAgentsAt(run, j - 1);
      AgentRow(StateAt(run, j - 1), run[j - 1].now, run[j - 1].event, a);
      ReachableStamped(run, j - 1, run[j - 1].now);
    }
  }

  lemma TokenFindsAgent(run: seq<Timed>, n: nat, a: nat)
    requires IsRun(run) && n <= |run| && a < |StateAt(run, n).agents|
    ensures AgentByToken(StateAt(run, n).agents, StateAt(run, n).agents[a].token) == Some(a)
  {
    Registration.ReachableSound(run, n);
    hide StateAt;
    var agents := StateAt(run, n).agents;
    var found := AgentByToken(agents, agents[a].token);
    assert agents[a].isActive;
  }

  /** A heartbeat with the agent's token, accepted at event e, bounds its stamp from then on. */
  lemma AcceptedHeartbeat(run: seq<Timed>, i: nat, e: nat, j: nat, a: nat)
    requires IsRun(run) && i <= e < j <= |run| && a < |StateAt(run, i).agents| && Undisturbed(run, i, j, a)
    requires run[e].event == Heartbeat(StateAt(run, i).agents[a].token)
    ensures a < |StateAt(run, j).agents| && StateAt(run, j).agents[a].lastHeartbeat.Some?
    ensures StateAt(run, j).agents[a].lastHeartbeat.value >= run[e].now
  {
    hide Step, ValidAt, Registration.Sound, Reregisters;
    assert Undisturbed(run, i, e, a);
    StaysRegistered(run, i, e, a);
    TokenFindsAgent(run, e, a);
    UniqueAgentsAt(run, e);
    AgentRow(StateAt(run, e), run[e].now, run[e].event, a);
    StampGrows(run, e + 1, j, a);
  }

  // ---------------------------------------------------------------- no false offline alert

  /** A running agent and its network, as seen until time `until`: the readings at which its
      loop iterations begin, and when each heartbeat it sends arrives, if it does. */
  datatype Link = Link(ticks: seq<int>, arrivals: seq<Option<int>>)

  ghost function Sends(link: Link, interval: int): seq<int> { AgentLoop.Fires(link.ticks, interval) }

  /** One of the k + 1 heartbeats up to number `last` arrives. */
  predicate SomeArrival(arrivals: seq<Option<int>>, last: nat, k: nat)
    requires k <= last < |arrivals|
  {
    exists m :: last - k <= m <= last && arrivals[m].Some?
  }

  /** Iterations take at most d, the loop starts within d of `since` and is still running at
      `until`; a delivered heartbeat takes at most l, and at most k in a row are lost. */
  ghost predicate Healthy(link: Link, interval: int, d: int, l: int, k: nat, since: int, until: int)
  {
    var sends := Sends(link, interval);
    && interval > 0 && d > 0 && l >= 0
    && link.ticks != [] && link.ticks[0] >= interval && AgentLoop.Paced(link.ticks, d)
    && link.ticks[0] - since <= d && until - link.ticks[|link.ticks| - 1] <= d
    && |link.arrivals| == |sends|
    && (forall j :: 0 <= j < |sends| && link.arrivals[j].Some? ==> sends[j] <= link.arrivals[j].value <= sends[j] + l)
    && (forall j :: k <= j < |sends| ==> SomeArrival(link.arrivals, j, k))
  }

  /** Every heartbeat that arrives before `until` is an event of the run, before event j. */
  ghost predicate Delivers(run: seq<Timed>, i: nat, j: nat, link: Link, token: nat, until: int)
    requires j <= |run|
  {
    forall m :: 0 <= m < |link.arrivals| && link.arrivals[m].Some? && link.arrivals[m].value < until ==>
      exists e :: i <= e < j && run[e] == Timed(link.arrivals[m].value, Heartbeat(token))
  }

  /** The last of a rising sequence of sends that is below a bound. */
  lemma LastBelow(sends: seq<int>, bound: int) returns (j: nat)
    requires sends != [] && sends[0] < bound
    ensures j < |sends| && sends[j] < bound && (j + 1 < |sends| ==> sends[j + 1] >= bound)
  {
    j := 0;
    while j + 1 < |sends| && sends[j + 1] < bound
      invariant j < |sends| && sends[j] < bound
    {
      j := j + 1;
    }
  }

  /** The last send that must have arrived by now is recent, or there is none yet. */
  lemma RecentSend(link: Link, interval: int, d: int, l: int, k: nat, since: int, until: int) returns (j: int)
    requires Healthy(link, interval, d, l, k, since, until)
    ensures var sends := Sends(link, interval);
      if j == -1 then since >= until - l - (interval + d)
      else 0 <= j < |sends| && until - l - (interval + d) <= sends[j] < until - l
  {
    var sends := Sends(link, interval);
    AgentLoop.FiresRegularly(link.ticks, interval, d);
    if sends[0] >= until - l {
      j := -1;
    } else {
      j := LastBelow(sends, until - l);
      if j + 1 < |sends| { assert AgentLoop.StepBetween(sends, j + 1, interval, interval + d - 1); }
    }
  }

  /** Some heartbeat arrived not long before `until`, or the agent registered not long before. */
  lemma RecentArrival(link: Link, interval: int, d: int, l: int, k: nat, since: int, until: int) returns (m: int)
    requires Healthy(link, interval, d, l, k, since, until)
    ensures var oldest := until - l - (k + 1) * (interval + d);
      if m == -1 then since >= oldest
      else 0 <= m < |link.arrivals| && link.arrivals[m].Some? && oldest <= link.arrivals[m].value < until
  {
    var sends, gap := Sends(link, interval), interval + d;
    assert (k + 1) * gap == k * gap + gap && k * gap >= 0;
    var j := RecentSend(link, interval, d, l, k, since, until);
    AgentLoop.FiresRegularly(link.ticks, interval, d);
    if j == -1 {
      m := -1;
    } else if j >= k {
      assert SomeArrival(link.arrivals, j, k);
      m :| j - k <= m <= j && link.arrivals[m].Some?;
      SpanOf(sends, interval, d, m, j, k);
    } else {
      m := -1;
      SpanOf(sends, interval, d, 0, j, k - 1);
      assert (k - 1) * gap + gap == k * gap;
    }
  }

  lemma SpanOf(sends: seq<int>, interval: int, d: int, i: nat, j: nat, n: nat)
    requires AgentLoop.Regular(sends, interval, d) && interval > 0 && d > 0 && i <= j < |sends| && j - i <= n
    ensures 0 <= sends[j] - sends[i] <= n * (interval + d)
  {
    AgentLoop.StepsSpan(sends, interval, interval + d - 1, i, j, n);
    assert n * (interval + d) == n * (interval + d - 1) + n;
  }

  /** No false offline alert. Agent a holds a token and was stamped when it registered; its
      loop and network are healthy with (k + 1) * (interval + d) + l within the timeout, and no
      one registers its server again. Then a sweep at any event j, in any run with whatever
      other requests and passes, creates no alert for its server. */
  lemma NoFalseOfflineAlert(run: seq<Timed>, i: nat, j: nat, a: nat, link: Link, interval: int, d: int, l: int, k: nat)
    requires IsRun(run) && i <= j < |run| && run[j].event.Sweep?
    requires a < |StateAt(run, i).agents| && StateAt(run, i).agents[a].lastHeartbeat.Some?
    requires Undisturbed(run, i, j, a)
    requires Healthy(link, interval, d, l, k, StateAt(run, i).agents[a].lastHeartbeat.value, run[j].now)
    requires Delivers(run, i, j, link, StateAt(run, i).agents[a].token, run[j].now)
    requires (k + 1) * (interval + d) + l <= HEARTBEAT_TIMEOUT
    ensures var server := StateAt(run, i).agents[a].server;
      !OfflineAlerts.AddsAlertFor(StateAt(run, j).alerts, StateAt(run, j + 1).alerts, server)
  {
    var db := StateAt(run, j);
    assert StateAt(run, j + 1) == SweepAll(db, run[j].now);
    hide Step, ValidAt, Undisturbed, SweepAll;
    StaysRegistered(run, i, j, a);
    NotStaleAt(run, i, j, a, link, interval, d, l, k);
    UniqueAgentsAt(run, j);
    NotStaleNotReported(db, run[j].now, a);
  }

  lemma NotStaleNotReported(db: Db, now: int, a: nat)
    requires Registration.UniqueAgents(db.agents) && a < |db.agents| && !IsStale(db.agents[a], now)
    ensures !OfflineAlerts.AddsAlertFor(db.alerts, SweepAll(db, now).alerts, db.agents[a].server)
  {
    forall i | 0 <= i < |db.agents| && db.agents[i].server == db.agents[a].server ensures !IsStale(db.agents[i], now) {
      assert i == a;
    }
    OfflineAlerts.FreshIsNotReported(db, now, db.agents[a].server, |db.agents|);
  }

  lemma NotStaleAt(run: seq<Timed>, i: nat, j: nat, a: nat, link: Link, interval: int, d: int, l: int, k: nat)
    requires IsRun(run) && i <= j < |run|
    requires a < |StateAt(run, i).agents| && StateAt(run, i).agents[a].lastHeartbeat.Some?
    requires Undisturbed(run, i, j, a)
    requires Healthy(link, interval, d, l, k, StateAt(run, i).agents[a].lastHeartbeat.value, run[j].now)
    requires Delivers(run, i, j, link, StateAt(run, i).agents[a].token, run[j].now)
    requires (k + 1) * (interval + d) + l <= HEARTBEAT_TIMEOUT
    ensures a < |StateAt(run, j).agents| && !IsStale(StateAt(run, j).agents[a], run[j].now)
  {
    hide Step, ValidAt, Undisturbed, Healthy;
    var m := RecentArrival(link, interval, d, l, k, StateAt(run, i).agents[a].lastHeartbeat.value, run[j].now);
    StampGrows(run, i, j, a);
    if m != -1 {
      var e :| i <= e < j && run[e] == Timed(link.arrivals[m].value, Heartbeat(StateAt(run, i).agents[a].token));
      AcceptedHeartbeat(run, i, e, j, a);
    }
  }

  // ---------------------------------------------------------------- bounded detection

  ghost predicate NotTouched(run: seq<Timed>, e: nat, a: nat)
    requires e < |run|
  {
    a < |StateAt(run, e).agents| && !Touches(StateAt(run, e), run[e].now, run[e].event, a)
  }

  /** From event i to event j nothing stamps agent a. */
  ghost predicate Silent(run: seq<Timed>, i: nat, j: nat, a: nat)
    requires j <= |run|
  {
    forall e :: i <= e < j ==> NotTouched(run, e, a)
  }

  lemma {:induction false} SilentKeepsRow(run: seq<Timed>, i: nat, j: nat, a: nat)
    requires IsRun(run) && i <= j <= |run| && a < |StateAt(run, i).agents| && Silent(run, i, j, a)
    ensures a < |StateAt(run, j).agents| && StateAt(run, j).agents[a] == StateAt(run, i).agents[a]
  {
    hide Step, ValidAt, Registration.Sound, Touches, Reregisters;
    if i < j {
      SilentKeepsRow(run, i, j - 1, a);
      assert NotTouched(run, j - 1, a);
      UniqueAgentsAt(run, j - 1);
      AgentRow(StateAt(run, j - 1), run[j - 1].now, run[j - 1].event, a);
    }
  }

  ghost function Times(run: seq<Timed>, sweeps: seq<nat>): seq<int>
    requires forall s :: 0 <= s < |sweeps| ==> sweeps[s] < |run|
  {
    seq(|sweeps|, s requires 0 <= s < |sweeps| => run[sweeps[s]].now)
  }

  /** Sweeps of the run from event i on, each within `period` of the one before, the first
      within `period` of `start` and the last after `end`. */
  ghost predicate SweepsEvery(run: seq<Timed>, i: nat, sweeps: seq<nat>, period: int, start: int, end: int)
  {
    && sweeps != []
    && (forall s :: 0 <= s < |sweeps| ==> i <= sweeps[s] < |run| && run[sweeps[s]].event.Sweep?)
    && AgentLoop.StepsBetween(Times(run, sweeps), 0, period)
    && run[sweeps[0]].now <= start + period
    && run[sweeps[|sweeps| - 1]].now > end
  }

  lemma FirstSweepAfter(run: seq<Timed>, i: nat, sweeps: seq<nat>, period: int, start: int, end: int) returns (s: nat)
    requires SweepsEvery(run, i, sweeps, period, start, end) && start <= end
    ensures s < |sweeps| && end < run[sweeps[s]].now <= end + period
  {
    var times := Times(run, sweeps);
    s := 0;
    while times[s] <= end
      invariant s < |sweeps| && times[s] <= end + period
      decreases |sweeps| - s
    {
      assert AgentLoop.StepBetween(times, s + 1, 0, period);
      s := s + 1;
    }
  }

  lemma SilentIsReported(run: seq<Timed>, i: nat, j: nat, a: nat, t: int)
    requires IsRun(run) && i <= j < |run| && a < |StateAt(run, i).agents| && Silent(run, i, j, a)
    requires StateAt(run, i).agents[a].lastHeartbeat.Some? && StateAt(run, i).agents[a].lastHeartbeat.value <= t
    requires run[j].event.Sweep? && t + HEARTBEAT_TIMEOUT < run[j].now
    ensures HasOpenOffline(StateAt(run, j + 1).alerts, StateAt(run, i).agents[a].server)
  {
    var db := StateAt(run, j);
    assert StateAt(run, j + 1) == SweepAll(db, run[j].now);
    SilentKeepsRow(run, i, j, a);
    Registration.ReachableSound(run, j);
    hide StateAt, SweepAll;
    assert db.agents[a].isActive && db.agents[a].server < |db.servers|;
    OfflineAlerts.StaleIsReported(db, run[j].now, a);
  }

  /** Bounded detection. An agent stamped no later than t falls silent; sweeps are at most
      `period` apart. Then some sweep by t + timeout + period leaves an open offline alert for
      its server. */
  lemma BoundedDetection(run: seq<Timed>, i: nat, a: nat, t: int, sweeps: seq<nat>, period: int)
    requires IsRun(run) && i <= |run| && a < |StateAt(run, i).agents| && Silent(run, i, |run|, a)
    requires StateAt(run, i).agents[a].lastHeartbeat.Some? && StateAt(run, i).agents[a].lastHeartbeat.value <= t
    requires SweepsEvery(run, i, sweeps, period, t, t + HEARTBEAT_TIMEOUT)
    ensures exists j ::
      && i <= j < |run| && run[j].event.Sweep? && run[j].now <= t + HEARTBEAT_TIMEOUT + period
      && HasOpenOffline(StateAt(run, j + 1).alerts, StateAt(run, i).agents[a].server)
  {
    var s := FirstSweepAfter(run, i, sweeps, period, t, t + HEARTBEAT_TIMEOUT);
    var j := sweeps[s];
    hide Step, StateAt, ValidAt, NotTouched;
    assert Silent(run, i, j, a);
    SilentIsReported(run, i, j, a, t);
  }
}
