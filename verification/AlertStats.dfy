/** The alert figures of an organization (backend/app/api/v1/alerts.py:186-206): counts per
    status and per severity, added up from the rows of a GROUP BY over both. */
module AlertStats {
  import opened Monitor

  /** A row of the grouped query. */
  datatype Group = Group(status: string, severity: string, count: nat)

  datatype Stats = Stats(byStatus: map<string, nat>, bySeverity: map<string, nat>, total: nat)

  /** Which alerts a figure counts. */
  datatype Figure = OfStatus(status: string) | OfSeverity(severity: string) | OfAll

  predicate Counts(f: Figure, status: string, severity: string)
  {
    match f
    case OfStatus(s) => status == s
    case OfSeverity(s) => severity == s
    case OfAll => true
  }

  /** The organization's alerts that the figure counts. */
  function Count(alerts: seq<Alert>, org: nat, f: Figure): nat
  {
    if alerts == [] then 0
    else
      var a := alerts[|alerts| - 1];
      Count(alerts[..|alerts| - 1], org, f) + if a.org == org && Counts(f, a.status, a.severity) then 1 else 0
  }

  predicate InGroup(a: Alert, org: nat, g: Group)
  {
    a.org == org && a.status == g.status && a.severity == g.severity
  }

  function GroupCount(alerts: seq<Alert>, org: nat, g: Group): nat
  {
    if alerts == [] then 0
    else GroupCount(alerts[..|alerts| - 1], org, g) + if InGroup(alerts[|alerts| - 1], org, g) then 1 else 0
  }

  ghost predicate GroupsDiffer(groups: seq<Group>)
  {
    forall i, j :: 0 <= i < j < |groups| ==>
      groups[i].status != groups[j].status || groups[i].severity != groups[j].severity
  }

  ghost predicate HasGroup(groups: seq<Group>, org: nat, a: Alert)
  {
    exists i :: 0 <= i < |groups| && InGroup(a, org, groups[i])
  }

  /** One row for each pair of status and severity that occurs in the organization, in any
      order, with the number of its alerts. */
  ghost predicate IsGrouping(alerts: seq<Alert>, org: nat, groups: seq<Group>)
  {
    && GroupsDiffer(groups)
    && (forall g :: g in groups ==> g.count == GroupCount(alerts, org, g))
    && (forall a :: a in alerts && a.org == org ==> HasGroup(groups, org, a))
  }

  /** The counts of the rows that belong to the figure, added up. */
  function Sum(groups: seq<Group>, f: Figure): nat
  {
    if groups == [] then 0
    else
      var g := groups[|groups| - 1];
      Sum(groups[..|groups| - 1], f) + if Counts(f, g.status, g.severity) then g.count else 0
  }

  function Get(m: map<string, nat>, k: string): nat { if k in m then m[k] else 0 }

  lemma SumStep(groups: seq<Group>, i: nat, f: Figure)
    requires i < |groups|
    ensures Sum(groups[..i + 1], f)
         == Sum(groups[..i], f) + if Counts(f, groups[i].status, groups[i].severity) then groups[i].count else 0
  {
    assert groups[..i + 1][..i] == groups[..i];
  }

  method GetAlertStats(groups: seq<Group>) returns (stats: Stats)
    ensures forall s :: Get(stats.byStatus, s) == Sum(groups, OfStatus(s))
    ensures forall s :: Get(stats.bySeverity, s) == Sum(groups, OfSeverity(s))
    ensures stats.total == Sum(groups, OfAll)
  {
    var byStatus: map<string, nat>, bySeverity: map<string, nat>, total: nat := map[], map[], 0;
    for i := 0 to |groups|
      invariant forall s :: Get(byStatus, s) == Sum(groups[..i], OfStatus(s))
      invariant forall s :: Get(bySeverity, s) == Sum(groups[..i], OfSeverity(s))
      invariant total == Sum(groups[..i], OfAll)
    {
      var g := groups[i];
      forall s { SumStep(groups, i, OfStatus(s)); }
      forall s { SumStep(groups, i, OfSeverity(s)); }
      SumStep(groups, i, OfAll);
      byStatus := byStatus[g.status := Get(byStatus, g.status) + g.count];
      bySeverity := bySeverity[g.severity := Get(bySeverity, g.severity) + g.count];
      total := total + g.count;
    }
    assert groups[..|groups|] == groups;
    stats := Stats(byStatus, bySeverity, total);
  }

  // ---------------------------------------------------------------- no alert is lost or counted twice

  /** The true sizes of the groups that belong to the figure, added up. */
  function Sizes(groups: seq<Group>, alerts: seq<Alert>, org: nat, f: Figure): nat
  {
    if groups == [] then 0
    else
      var g := groups[|groups| - 1];
      Sizes(groups[..|groups| - 1], alerts, org, f) +
      if Counts(f, g.status, g.severity) then GroupCount(alerts, org, g) else 0
  }

  lemma {:induction false} SumIsSizes(groups: seq<Group>, alerts: seq<Alert>, org: nat, f: Figure)
    requires forall g :: g in groups ==> g.count == GroupCount(alerts, org, g)
    ensures Sum(groups, f) == Sizes(groups, alerts, org, f)
  {
    if groups != [] { SumIsSizes(groups[..|groups| - 1], alerts, org, f); }
  }

  /** One more alert adds one to the sizes if one of the groups has it, and nothing if none
      does. */
  lemma {:induction false} OneMore(groups: seq<Group>, alerts: seq<Alert>, a: Alert, org: nat, f: Figure)
    requires GroupsDiffer(groups)
    ensures Sizes(groups, alerts + [a], org, f) == Sizes(groups, alerts, org, f) +
      if HasGroup(groups, org, a) && Counts(f, a.status, a.severity) then 1 else 0
  {
    if groups != [] {
      var last := |groups| - 1;
      OneMore(groups[..last], alerts, a, org, f);
      assert (alerts + [a])[..|alerts|] == alerts;
      if InGroup(a, org, groups[last]) {
        assert !HasGroup(groups[..last], org, a);
      } else {
        assert HasGroup(groups, org, a) <==> HasGroup(groups[..last], org, a);
      }
    }
  }

  lemma {:induction false} NoAlerts(groups: seq<Group>, org: nat, f: Figure)
    ensures Sizes(groups, [], org, f) == 0
  {
    if groups != [] { NoAlerts(groups[..|groups| - 1], org, f); }
  }

  lemma {:induction false} SizesAreCount(groups: seq<Group>, alerts: seq<Alert>, org: nat, f: Figure)
    requires GroupsDiffer(groups)
    requires forall a :: a in alerts && a.org == org ==> HasGroup(groups, org, a)
    ensures Sizes(groups, alerts, org, f) == Count(alerts, org, f)
  {
    if alerts == [] {
      NoAlerts(groups, org, f);
    } else {
      var last := |alerts| - 1;
      SizesAreCount(groups, alerts[..last], org, f);
      OneMore(groups, alerts[..last], alerts[last], org, f);
      assert alerts[..last] + [alerts[last]] == alerts;
      assert HasGroup(groups, org, alerts[last]) ==> alerts[last].org == org;
    }
  }

  /** From any grouping of the alerts, the figures are the numbers of the organization's alerts
      with that status, with that severity, and in all. */
  lemma FiguresCountAlerts(alerts: seq<Alert>, org: nat, groups: seq<Group>, f: Figure)
    requires IsGrouping(alerts, org, groups)
    ensures Sum(groups, f) == Count(alerts, org, f)
  {
    SumIsSizes(groups, alerts, org, f);
    SizesAreCount(groups, alerts, org, f);
  }

  predicate IsCounted(a: Alert, org: nat, f: Figure) { a.org == org && Counts(f, a.status, a.severity) }

  /** The numbers of the rows that the figure counts. */
  function Counted(alerts: seq<Alert>, org: nat, f: Figure): set<int>
  {
    set i | 0 <= i < |alerts| && IsCounted(alerts[i], org, f)
  }

  lemma {:induction false} CountIsSize(alerts: seq<Alert>, org: nat, f: Figure)
    ensures Count(alerts, org, f) == |Counted(alerts, org, f)|
  {
    if alerts != [] {
      var last := |alerts| - 1;
      CountIsSize(alerts[..last], org, f);
      hide Counts;
      assert Counted(alerts, org, f) ==
        Counted(alerts[..last], org, f) + if IsCounted(alerts[last], org, f) then {last} else {};
    }
  }

  /** The method's figures, added up from any grouping, are the numbers of the organization's
      alerts with that status, with that severity, and in all. */
  lemma FiguresAreSizes(alerts: seq<Alert>, org: nat, groups: seq<Group>, s: string)
    requires IsGrouping(alerts, org, groups)
    ensures Sum(groups, OfStatus(s)) == |set i | 0 <= i < |alerts| && alerts[i].org == org && alerts[i].status == s|
    ensures Sum(groups, OfSeverity(s)) == |set i | 0 <= i < |alerts| && alerts[i].org == org && alerts[i].severity == s|
    ensures Sum(groups, OfAll) == |set i | 0 <= i < |alerts| && alerts[i].org == org|
  {
    FiguresCountAlerts(alerts, org, groups, OfStatus(s));
    FiguresCountAlerts(alerts, org, groups, OfSeverity(s));
    FiguresCountAlerts(alerts, org, groups, OfAll);
    CountIsSize(alerts, org, OfStatus(s));
    CountIsSize(alerts, org, OfSeverity(s));
    CountIsSize(alerts, org, OfAll);
    assert Counted(alerts, org, OfStatus(s))
        == set i | 0 <= i < |alerts| && alerts[i].org == org && alerts[i].status == s;
    assert Counted(alerts, org, OfSeverity(s))
        == set i | 0 <= i < |alerts| && alerts[i].org == org && alerts[i].severity == s;
    assert Counted(alerts, org, OfAll) == set i | 0 <= i < |alerts| && alerts[i].org == org;
  }
}
