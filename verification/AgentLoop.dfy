/** The agent's polling loop: three timers checked once per iteration against a clock reading
    taken at its start (agent/infrapulse_agent.py:514-555). */
module AgentLoop {
  /** When a timer that started at 0 last fired, after iterations that began at `ticks`. */
  function LastFire(ticks: seq<int>, interval: int): int
  {
    if ticks == [] then 0
    else
      var now := ticks[|ticks| - 1];
      var last := LastFire(ticks[..|ticks| - 1], interval);
      if now - last >= interval then now else last
  }

  /** The iterations in which a timer fires. */
  function Fires(ticks: seq<int>, interval: int): seq<int>
  {
    if ticks == [] then []
    else
      var now := ticks[|ticks| - 1];
      var before := ticks[..|ticks| - 1];
      Fires(before, interval) + (if now - LastFire(before, interval) >= interval then [now] else [])
  }

  /** One agent; its intervals are in microseconds. */
  class InfraPulseAgent {
    const heartbeatInterval: int
    const metricInterval: int
    const logInterval: int
    var heartbeats: seq<int>
    var metricPushes: seq<int>
    var logPushes: seq<int>

    constructor (heartbeatInterval: int, metricInterval: int, logInterval: int)
      ensures this.heartbeatInterval == heartbeatInterval
      ensures this.metricInterval == metricInterval && this.logInterval == logInterval
      ensures heartbeats == [] && metricPushes == [] && logPushes == []
    {
      this.heartbeatInterval := heartbeatInterval;
      this.metricInterval := metricInterval;
      this.logInterval := logInterval;
      heartbeats, metricPushes, logPushes := [], [], [];
    }

    /** Iterations begin at the clock readings `ticks`, until the agent is stopped. The fields
        record the reading of each iteration that sends. */
    method Run(ticks: seq<int>)
      modifies this
      ensures heartbeats == old(heartbeats) + Fires(ticks, heartbeatInterval)
      ensures metricPushes == old(metricPushes) + Fires(ticks, metricInterval)
      ensures logPushes == old(logPushes) + Fires(ticks, logInterval)
    {
      var lastHeartbeat, lastMetricPush, lastLogPush := 0, 0, 0;
      var i := 0;
      while i < |ticks|
        invariant 0 <= i <= |ticks|
        invariant lastHeartbeat == LastFire(ticks[..i], heartbeatInterval)
        invariant lastMetricPush == LastFire(ticks[..i], metricInterval)
        invariant lastLogPush == LastFire(ticks[..i], logInterval)
        invariant heartbeats == old(heartbeats) + Fires(ticks[..i], heartbeatInterval)
        invariant metricPushes == old(metricPushes) + Fires(ticks[..i], metricInterval)
        invariant logPushes == old(logPushes) + Fires(ticks[..i], logInterval)
      {
        var now := ticks[i];
        assert ticks[..i + 1][..i] == ticks[..i];
        if now - lastHeartbeat >= heartbeatInterval {
          heartbeats := heartbeats + [now];
          lastHeartbeat := now;
        }
        if now - lastMetricPush >= metricInterval {
          metricPushes := metricPushes + [now];
          lastMetricPush := now;
        }
        if now - lastLogPush >= logInterval {
          logPushes := logPushes + [now];
          lastLogPush := now;
        }
        i := i + 1;
      }
      assert ticks[..i] == ticks;
    }
  }

  predicate StepBetween(s: seq<int>, i: nat, low: int, high: int)
    requires 0 < i < |s|
  {
    low <= s[i] - s[i - 1] <= high
  }

  ghost predicate StepsBetween(s: seq<int>, low: int, high: int)
  {
    forall i :: 0 < i < |s| ==> StepBetween(s, i, low, high)
  }

  /** Every iteration takes at most `d`, and the clock does not run backwards. */
  ghost predicate Paced(ticks: seq<int>, d: int) { StepsBetween(ticks, 0, d) }

  /** Consecutive sends are at least the interval apart and less than the interval plus one
      iteration. */
  ghost predicate Regular(fires: seq<int>, interval: int, d: int) { StepsBetween(fires, interval, interval + d - 1) }

  lemma StepsOfPrefix(s: seq<int>, low: int, high: int)
    requires s != [] && StepsBetween(s, low, high)
    ensures StepsBetween(s[..|s| - 1], low, high)
  {
    var prefix := s[..|s| - 1];
    forall i | 0 < i < |prefix| ensures StepBetween(prefix, i, low, high) {
      assert StepBetween(s, i, low, high);
    }
  }

  lemma StepsAppend(s: seq<int>, x: int, low: int, high: int)
    requires s != [] && StepsBetween(s, low, high) && low <= x - s[|s| - 1] <= high
    ensures StepsBetween(s + [x], low, high)
  {
    var longer := s + [x];
    forall i | 0 < i < |longer| ensures StepBetween(longer, i, low, high) {
      if i < |s| { assert StepBetween(s, i, low, high); }
    }
  }

  /** A timer of a paced loop fires in its first iteration, then regularly, and at any time its
      last fire is less than the interval before the current iteration. */
  lemma {:induction false} FiresRegularly(ticks: seq<int>, interval: int, d: int)
    requires Paced(ticks, d) && interval > 0 && d > 0 && ticks != [] && ticks[0] >= interval
    ensures var fires := Fires(ticks, interval);
      && fires != [] && fires[0] == ticks[0] && Regular(fires, interval, d)
      && LastFire(ticks, interval) == fires[|fires| - 1]
      && 0 <= ticks[|ticks| - 1] - fires[|fires| - 1] < interval
  {
    var n := |ticks| - 1;
    if n == 0 {
      assert ticks[..0] == [];
    } else {
      var before := ticks[..n];
      StepsOfPrefix(ticks, 0, d);
      FiresRegularly(before, interval, d);
      assert StepBetween(ticks, n, 0, d);
      var fires := Fires(before, interval);
      if ticks[n] - LastFire(before, interval) >= interval {
        StepsAppend(fires, ticks[n], interval, interval + d - 1);
      } else {
        assert Fires(ticks, interval) == fires;
      }
    }
  }

  /** n sends span at most n times the largest step, and never go back. */
  lemma {:induction false} StepsSpan(s: seq<int>, low: nat, high: nat, i: nat, j: nat, n: nat)
    requires StepsBetween(s, low, high) && i <= j < |s| && j - i <= n
    ensures 0 <= s[j] - s[i] <= n * high
  {
    if i < j {
      StepsSpan(s, low, high, i, j - 1, n - 1);
      assert StepBetween(s, j, low, high);
      assert n * high == (n - 1) * high + high;
      assert low <= s[j] - s[j - 1] <= high;
    } else {
      assert 0 <= n * high;
    }
  }
}
