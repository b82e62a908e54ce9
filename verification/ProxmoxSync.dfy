/** Syncing a Proxmox inventory into the node, guest and metric tables. */
module ProxmoxSync {
  import opened Prelude
  import opened ProxmoxInventory
  import opened Upsert

  // ---------------------------------------------------------------- metrics of a sync

  datatype Metric = Metric(org: nat, node: nat, name: string, value: real)

  predicate Positive(n: Option<nat>) { n.Some? && n.value != 0 }

  function Percent(used: nat, total: nat): real
    requires total > 0
  {
    used as real / total as real * 100.0
  }

  /** The metrics stored for one inventory entry whose row has id `node`. */
  function NodeMetrics(org: nat, node: nat, d: NodeData): seq<Metric>
  {
    (if d.cpuUsage.Some? then [Metric(org, node, "cpu_percent", d.cpuUsage.value * 100.0)] else []) +
    (if Positive(d.memoryUsed) && Positive(d.memoryTotal) then
       [Metric(org, node, "memory_percent", Percent(d.memoryUsed.value, d.memoryTotal.value))]
     else [])
  }

  /** How many metrics an inventory calls for. */
  function MetricCount(nodes: seq<NodeItem>): nat
  {
    if nodes == [] then 0
    else
      var d := nodes[|nodes| - 1].1;
      MetricCount(nodes[..|nodes| - 1]) + (if d.cpuUsage.Some? then 1 else 0) +
      (if Positive(d.memoryUsed) && Positive(d.memoryTotal) then 1 else 0)
  }

  /** The metrics a sync adds, given the node table before it. */
  function SyncMetrics(rows: seq<Row<string, NodeData>>, conn: nat, org: nat, nodes: seq<NodeItem>,
                       now: int): seq<Metric>
  {
    if nodes == [] then []
    else
      var before, item := nodes[..|nodes| - 1], nodes[|nodes| - 1];
      var row := FindRow(PutAll(rows, conn, org, nodes, now), conn, item.0);
      SyncMetrics(rows, conn, org, before, now) + NodeMetrics(org, if row.Some? then row.value else 0, item.1)
  }

  lemma {:induction false} MetricsGrowBy(rows: seq<Row<string, NodeData>>, conn: nat, org: nat,
                                         nodes: seq<NodeItem>, now: int)
    ensures |SyncMetrics(rows, conn, org, nodes, now)| == MetricCount(nodes)
  {
    if nodes != [] { MetricsGrowBy(rows, conn, org, nodes[..|nodes| - 1], now); }
  }

  /** The metrics a node calls for: one if it has a CPU figure, one if neither memory figure is
      missing or 0. */
  function MetricsOf(n: RawNode): nat
  {
    if !HasName(n) then 0
    else (if n.cpu.Some? then 1 else 0) +
         (if n.mem.Some? && n.mem.value > 0 && n.maxmem.Some? && n.maxmem.value > 0 then 1 else 0)
  }

  function MetricsFor(raw: seq<RawNode>): nat
  {
    if raw == [] then 0 else MetricsFor(raw[..|raw| - 1]) + MetricsOf(raw[|raw| - 1])
  }

  lemma MetricsOfEntry(n: RawNode, version: Option<string>)
    requires Named(n)
    ensures var d := NodeOf(n, version).1;
      MetricsOf(n) ==
      (if d.cpuUsage.Some? then 1 else 0) + (if Positive(d.memoryUsed) && Positive(d.memoryTotal) then 1 else 0)
  {
  }

  lemma {:induction false} MetricCountIs(raw: seq<RawNode>, version: Option<string>)
    ensures MetricCount(Collected(raw, version).nodes) == MetricsFor(raw)
  {
    hide NodeOf, MetricsOf, Vms, Containers, Positive;
    if raw != [] {
      MetricCountIs(raw[..|raw| - 1], version);
      var before, n := Collected(raw[..|raw| - 1], version), raw[|raw| - 1];
      if Named(n) {
        var nodes := before.nodes + [NodeOf(n, version)];
        assert Collected(raw, version).nodes == nodes && nodes[..|nodes| - 1] == before.nodes;
        MetricsOfEntry(n, version);
      } else {
        NamelessBringsNone(n);
      }
    }
  }

  lemma NamelessBringsNone(n: RawNode)
    ensures !Named(n) ==> MetricsOf(n) == 0
  {
  }

  /** The metric belongs to the row of that connection and node, and is the node's CPU figure or
      the share of its memory that is used, in percent. */
  predicate IsMetricOf(m: Metric, org: nat, rows: seq<Row<string, NodeData>>, conn: nat, item: NodeItem)
  {
    && m.org == org && m.node < |rows| && rows[m.node].conn == conn && rows[m.node].key == item.0
    && (|| (m.name == "cpu_percent" && item.1.cpuUsage.Some? && m.value == item.1.cpuUsage.value * 100.0)
        || (m.name == "memory_percent" && item.1.memoryUsed.Some? && item.1.memoryTotal.Some? &&
            item.1.memoryUsed.value > 0 && item.1.memoryTotal.value > 0 &&
            m.value * (item.1.memoryTotal.value as real) == item.1.memoryUsed.value as real * 100.0))
  }

  lemma PercentIs(x: real, used: nat, total: nat)
    requires total > 0
    ensures x * (total as real) == used as real * 100.0 <==> x == Percent(used, total)
  {
    var n := total as real;
    var q := used as real / n;
    assert q * n == used as real;
    assert (q * 100.0) * n == used as real * 100.0;
    if x * n == used as real * 100.0 { assert (x - q * 100.0) * n == 0.0; }
  }

  lemma NodeMetricsAre(org: nat, rows: seq<Row<string, NodeData>>, conn: nat, item: NodeItem, node: nat, m: Metric)
    requires UniqueKeys(rows) && node < |rows| && rows[node].conn == conn && rows[node].key == item.0
    ensures m in NodeMetrics(org, node, item.1) <==> IsMetricOf(m, org, rows, conn, item)
  {
    hide Percent;
    var d := item.1;
    if Positive(d.memoryUsed) && Positive(d.memoryTotal) {
      PercentIs(m.value, d.memoryUsed.value, d.memoryTotal.value);
    }
    assert IsMetricOf(m, org, rows, conn, item) ==> m.node == node;
  }

  // The next iteration keeps the row that an earlier entry is stored in.
  lemma SameRowLater(mid: seq<Row<string, NodeData>>, conn: nat, org: nat, item: NodeItem, now: int, earlier: NodeItem,
                     m: Metric)
    requires UniqueKeys(mid) && FindRow(mid, conn, earlier.0).Some?
    ensures IsMetricOf(m, org, Put(mid, conn, org, item, now), conn, earlier) <==>
      IsMetricOf(m, org, mid, conn, earlier)
  {
    PutUnique(mid, conn, org, item, now);
    var found := FindRow(mid, conn, earlier.0).value;
    var after := Put(mid, conn, org, item, now);
    assert after[found].conn == conn && after[found].key == earlier.0;
  }

  lemma StoredRow(rows: seq<Row<string, NodeData>>, conn: nat, org: nat, nodes: seq<NodeItem>, now: int, i: nat)
    requires UniqueKeys(rows) && i < |nodes|
    ensures UniqueKeys(PutAll(rows, conn, org, nodes, now))
    ensures FindRow(PutAll(rows, conn, org, nodes, now), conn, nodes[i].0).Some?
  {
    SyncIsOverride(rows, conn, org, nodes, now);
    MapKeysAreEntries(nodes, nodes[i].0);
    ViewKeys(PutAll(rows, conn, org, nodes, now), conn, nodes[i].0);
  }

  ghost predicate IsMetricOfSome(m: Metric, org: nat, rows: seq<Row<string, NodeData>>, conn: nat,
                                 nodes: seq<NodeItem>)
  {
    exists i :: 0 <= i < |nodes| && IsMetricOf(m, org, rows, conn, nodes[i])
  }

  lemma SomeOrLast(m: Metric, org: nat, mid: seq<Row<string, NodeData>>, after: seq<Row<string, NodeData>>, conn: nat,
                   nodes: seq<NodeItem>)
    requires nodes != []
    requires forall i :: 0 <= i < |nodes| - 1 ==>
      (IsMetricOf(m, org, after, conn, nodes[i]) <==> IsMetricOf(m, org, mid, conn, nodes[i]))
    ensures IsMetricOfSome(m, org, after, conn, nodes) <==>
      || IsMetricOfSome(m, org, mid, conn, nodes[..|nodes| - 1])
      || IsMetricOf(m, org, after, conn, nodes[|nodes| - 1])
  {
    hide IsMetricOf;
    var before := nodes[..|nodes| - 1];
    if i :| 0 <= i < |before| && IsMetricOf(m, org, mid, conn, before[i]) {
      assert IsMetricOf(m, org, after, conn, nodes[i]);
    }
    if i :| 0 <= i < |nodes| && IsMetricOf(m, org, after, conn, nodes[i]) {
      if i < |before| { assert IsMetricOf(m, org, mid, conn, before[i]); }
    }
  }

  /** The metrics a sync adds are those of the entries, each for the row of its node. */
  lemma {:induction false} SyncMetricsAre(rows: seq<Row<string, NodeData>>, conn: nat, org: nat, nodes: seq<NodeItem>,
                                          now: int, m: Metric)
    requires UniqueKeys(rows)
    ensures m in SyncMetrics(rows, conn, org, nodes, now) <==>
      IsMetricOfSome(m, org, PutAll(rows, conn, org, nodes, now), conn, nodes)
  {
    hide IsMetricOf, NodeMetrics, Put, FindRow, IsMetricOfSome;
    if nodes == [] {
      NoMetric(m, org, rows, conn);
    } else {
      var last := |nodes| - 1;
      var before, item := nodes[..last], nodes[last];
      var mid, after := PutAll(rows, conn, org, before, now), PutAll(rows, conn, org, nodes, now);
      SyncMetricsAre(rows, conn, org, before, now, m);
      forall i | 0 <= i < last
        ensures IsMetricOf(m, org, after, conn, nodes[i]) <==> IsMetricOf(m, org, mid, conn, nodes[i])
      {
        StoredRow(rows, conn, org, before, now, i);
        SameRowLater(mid, conn, org, item, now, nodes[i], m);
      }
      SomeOrLast(m, org, mid, after, conn, nodes);
      StoredRow(rows, conn, org, nodes, now, last);
      NodeMetricsAre(org, after, conn, item, FindRow(after, conn, item.0).value, m);
    }
  }

  lemma NoMetric(m: Metric, org: nat, rows: seq<Row<string, NodeData>>, conn: nat)
    ensures !IsMetricOfSome(m, org, rows, conn, [])
  {
  }

  // ---------------------------------------------------------------- the rows of a sync

  /** Node i has a name, and no later node has the same. */
  predicate IsLastNode(raw: seq<RawNode>, i: int)
  {
    0 <= i < |raw| && HasName(raw[i]) && forall k :: i < k < |raw| ==> raw[k].name != raw[i].name
  }

  ghost predicate ListsNode(raw: seq<RawNode>, key: string)
  {
    key != "" && exists k :: 0 <= k < |raw| && raw[k].name == Some(key)
  }

  ghost predicate NodeIsStored(rows: seq<Row<string, NodeData>>, conn: nat, n: RawNode, version: Option<string>,
                               now: int)
    requires HasName(n)
  {
    exists d :: Holds(rows, conn, n.name.value, d, now) && IsNodeEntry((n.name.value, d), n, version)
  }

  ghost predicate GuestIsStored(rows: seq<Row<int, GuestData>>, conn: nat, g: RawGuest, vmType: string, n: RawNode,
                                now: int)
  {
    exists d :: Holds(rows, conn, g.vmid, d, now) && IsGuestEntry((g.vmid, d), g, vmType, n)
  }

  lemma LastNodeIsStored(rows: seq<Row<string, NodeData>>, conn: nat, org: nat, raw: seq<RawNode>,
                         version: Option<string>, now: int, i: nat)
    requires UniqueKeys(rows) && IsLastNode(raw, i)
    ensures NodeIsStored(PutAll(rows, conn, org, Collected(raw, version).nodes, now), conn, raw[i], version, now)
  {
    var nodes := Collected(raw, version).nodes;
    InventoryIsExact(raw, version);
    hide Collected, GuestsInPlace;
    var at := NodesBefore(raw, i);
    forall q | at < q < |nodes| ensures nodes[q].0 != nodes[at].0 {
      var k := NodeOwner(raw, |raw|, q);
      if k < i { NodesBeforeGrows(raw, k, i); }
    }
    SyncStores(rows, conn, org, nodes, now, at);
    assert nodes[at] == (raw[i].name.value, nodes[at].1);
  }

  /** A guest is stored when no later guest of its type has its vmid and, if it is a VM, no
      container has. */
  ghost predicate IsLastGuest(raw: seq<RawNode>, vmType: string, i: int, j: int)
  {
    && 0 <= i < |raw| && 0 <= j < |GuestsOf(raw[i], vmType)|
    && LastOfVmid(raw, vmType, i, j, GuestsOf(raw[i], vmType)[j].vmid)
    && (vmType == "qemu" ==> !Lists(raw, "lxc", GuestsOf(raw[i], vmType)[j].vmid))
  }

  lemma LastGuestIsStored(rows: seq<Row<int, GuestData>>, conn: nat, org: nat, raw: seq<RawNode>,
                          version: Option<string>, now: int, vmType: string, i: nat, j: nat)
    requires UniqueKeys(rows) && (vmType == "qemu" || vmType == "lxc") && IsLastGuest(raw, vmType, i, j)
    ensures var inv := Collected(raw, version);
      GuestIsStored(PutAll(rows, conn, org, inv.vms + inv.containers, now), conn, GuestsOf(raw[i], vmType)[j], vmType,
                    raw[i], now)
  {
    var inv := Collected(raw, version);
    InventoryIsExact(raw, version);
    hide Collected, GuestsOf, NodesInPlace, GuestsInPlace, LastOfVmid, Lists;
    var all, vmid := inv.vms + inv.containers, GuestsOf(raw[i], vmType)[j].vmid;
    var list := if vmType == "qemu" then inv.vms else inv.containers;
    EntryOf(list, raw, vmType, i, j);
    var at := GuestsBefore(raw, vmType, i) + j;
    var place := if vmType == "qemu" then at else |inv.vms| + at;
    assert all[place] == list[at];
    forall q | place < q < |all| ensures all[q].0 != vmid {
      if vmType == "lxc" {
        LastInList(inv.containers, raw, "lxc", i, j, q - |inv.vms|);
      } else if q < |inv.vms| {
        LastInList(inv.vms, raw, "qemu", i, j, q);
      } else {
        AbsentFromList(inv.containers, raw, "lxc", vmid, q - |inv.vms|);
      }
    }
    SyncStores(rows, conn, org, all, now, place);
    assert all[place] == (vmid, all[place].1);
  }

  /** The last node of every name is in the connection's row of that name. */
  ghost predicate NodesAreStored(rows: seq<Row<string, NodeData>>, conn: nat, raw: seq<RawNode>,
                                 version: Option<string>, now: int)
  {
    forall i :: IsLastNode(raw, i) ==> NodeIsStored(rows, conn, raw[i], version, now)
  }

  /** The last guest of every vmid is in the connection's row of that vmid. */
  ghost predicate GuestsAreStored(rows: seq<Row<int, GuestData>>, conn: nat, raw: seq<RawNode>, vmType: string,
                                  now: int)
  {
    forall i, j :: IsLastGuest(raw, vmType, i, j) ==>
      GuestIsStored(rows, conn, GuestsOf(raw[i], vmType)[j], vmType, raw[i], now)
  }

  lemma SyncStoresNodes(rows: seq<Row<string, NodeData>>, conn: nat, org: nat, raw: seq<RawNode>,
                        version: Option<string>, now: int)
    requires UniqueKeys(rows)
    ensures NodesAreStored(PutAll(rows, conn, org, Collected(raw, version).nodes, now), conn, raw, version, now)
  {
    hide NodeIsStored, Collected, PutAll;
    forall i | IsLastNode(raw, i)
      ensures NodeIsStored(PutAll(rows, conn, org, Collected(raw, version).nodes, now), conn, raw[i], version, now)
    {
      LastNodeIsStored(rows, conn, org, raw, version, now, i);
    }
  }

  lemma SyncStoresGuests(rows: seq<Row<int, GuestData>>, conn: nat, org: nat, raw: seq<RawNode>,
                         version: Option<string>, now: int, vmType: string)
    requires UniqueKeys(rows) && (vmType == "qemu" || vmType == "lxc")
    ensures var inv := Collected(raw, version);
      GuestsAreStored(PutAll(rows, conn, org, inv.vms + inv.containers, now), conn, raw, vmType, now)
  {
    hide GuestIsStored, Collected, PutAll;
    var inv := Collected(raw, version);
    var after := PutAll(rows, conn, org, inv.vms + inv.containers, now);
    forall i, j | IsLastGuest(raw, vmType, i, j)
      ensures GuestIsStored(after, conn, GuestsOf(raw[i], vmType)[j], vmType, raw[i], now)
    {
      LastGuestIsStored(rows, conn, org, raw, version, now, vmType, i, j);
    }
  }

  /** The metric is one of a node with a name. */
  ghost predicate IsMetricOfNode(m: Metric, org: nat, rows: seq<Row<string, NodeData>>, conn: nat, raw: seq<RawNode>,
                                 version: Option<string>)
  {
    exists i, item :: 0 <= i < |raw| && IsNodeEntry(item, raw[i], version) && IsMetricOf(m, org, rows, conn, item)
  }

  ghost predicate MetricsAreOf(added: seq<Metric>, org: nat, rows: seq<Row<string, NodeData>>, conn: nat,
                               raw: seq<RawNode>, version: Option<string>)
  {
    forall m :: m in added <==> IsMetricOfNode(m, org, rows, conn, raw, version)
  }

  lemma OneEntry(a: NodeItem, b: NodeItem, n: RawNode, version: Option<string>)
    requires IsNodeEntry(a, n, version) && IsNodeEntry(b, n, version)
    ensures a == b
  {
  }

  lemma MetricOfEntry(m: Metric, org: nat, rows: seq<Row<string, NodeData>>, conn: nat, raw: seq<RawNode>,
                      version: Option<string>)
    ensures IsMetricOfSome(m, org, rows, conn, Collected(raw, version).nodes) <==>
      IsMetricOfNode(m, org, rows, conn, raw, version)
  {
    var nodes := Collected(raw, version).nodes;
    InventoryIsExact(raw, version);
    hide Collected, GuestsInPlace, IsMetricOf, IsNodeEntry;
    if q :| 0 <= q < |nodes| && IsMetricOf(m, org, rows, conn, nodes[q]) {
      var i := NodeOwner(raw, |raw|, q);
      assert IsNodeEntry(nodes[q], raw[i], version);
    }
    if i, item :| 0 <= i < |raw| && IsNodeEntry(item, raw[i], version) && IsMetricOf(m, org, rows, conn, item) {
      assert HasName(raw[i]) by { EntryHasName(item, raw[i], version); }
      OneEntry(item, nodes[NodesBefore(raw, i)], raw[i], version);
    }
  }

  lemma EntryHasName(item: NodeItem, n: RawNode, version: Option<string>)
    requires IsNodeEntry(item, n, version)
    ensures HasName(n)
  {
  }

  lemma SyncAddsMetrics(rows: seq<Row<string, NodeData>>, conn: nat, org: nat, raw: seq<RawNode>,
                        version: Option<string>, now: int)
    requires UniqueKeys(rows)
    ensures var nodes := Collected(raw, version).nodes;
      MetricsAreOf(SyncMetrics(rows, conn, org, nodes, now), org, PutAll(rows, conn, org, nodes, now), conn, raw,
                   version)
  {
    hide IsMetricOfSome, IsMetricOfNode, Collected, PutAll, SyncMetrics;
    var nodes := Collected(raw, version).nodes;
    var after := PutAll(rows, conn, org, nodes, now);
    forall m
      ensures m in SyncMetrics(rows, conn, org, nodes, now) <==> IsMetricOfNode(m, org, after, conn, raw, version)
    {
      SyncMetricsAre(rows, conn, org, nodes, now, m);
      MetricOfEntry(m, org, after, conn, raw, version);
    }
  }

  lemma InventoryCounts(raw: seq<RawNode>, version: Option<string>)
    ensures var inv := Collected(raw, version);
      && inv.version == version && |inv.nodes| == NodesBefore(raw, |raw|)
      && CountType(inv.vms, "qemu") == |inv.vms| == GuestsBefore(raw, "qemu", |raw|) && CountType(inv.vms, "lxc") == 0
  {
    InventoryIsExact(raw, version);
    ContainerCountIsZero(raw, version);
  }

  lemma InventoryKeys(raw: seq<RawNode>, version: Option<string>)
    ensures var inv := Collected(raw, version);
      && (forall q :: 0 <= q < |inv.nodes| ==> ListsNode(raw, inv.nodes[q].0))
      && (forall q :: 0 <= q < |inv.vms + inv.containers| ==>
            var vmid := (inv.vms + inv.containers)[q].0;
            Lists(raw, "qemu", vmid) || Lists(raw, "lxc", vmid))
  {
    var inv := Collected(raw, version);
    InventoryIsExact(raw, version);
    hide Collected, GuestsInPlace, GuestsOf;
    forall q | 0 <= q < |inv.nodes| ensures ListsNode(raw, inv.nodes[q].0) {
      var k := NodeOwner(raw, |raw|, q);
    }
    forall q | 0 <= q < |inv.vms + inv.containers|
      ensures var vmid := (inv.vms + inv.containers)[q].0; Lists(raw, "qemu", vmid) || Lists(raw, "lxc", vmid)
    {
      if q < |inv.vms| {
        ListedGuest(inv.vms, raw, "qemu", q);
      } else {
        ListedGuest(inv.containers, raw, "lxc", q - |inv.vms|);
      }
    }
  }

  lemma ListedGuest(items: seq<GuestItem>, raw: seq<RawNode>, vmType: string, q: nat)
    requires GuestsInPlace(items, raw, vmType) && q < |items|
    ensures Lists(raw, vmType, items[q].0)
  {
    hide GuestsOf;
    var k, l := GuestOwner(raw, vmType, |raw|, q);
    EntryOf(items, raw, vmType, k, l);
  }

  // ---------------------------------------------------------------- the tables

  datatype Connection = Connection(org: nat, status: string, lastConnectedAt: Option<int>, lastError: Option<string>,
                                   version: Option<string>, nodeCount: nat, vmCount: nat, containerCount: nat)

  class Store {
    var connections: seq<Connection>
    var nodes: seq<Row<string, NodeData>>
    var guests: seq<Row<int, GuestData>>
    var metrics: seq<Metric>

    constructor ()
      ensures connections == [] && nodes == [] && guests == [] && metrics == []
    {
      connections, nodes, guests, metrics := [], [], [], [];
    }

    /** The success path of one sync. */
    method SyncConnection(now: int, conn: nat, inventory: Inventory)
      requires conn < |connections|
      modifies this
      ensures connections == old(connections)[conn :=
        Connection(old(connections)[conn].org, "connected", Some(now), None, inventory.version, |inventory.nodes|,
                   CountType(inventory.vms, "qemu"), CountType(inventory.vms, "lxc"))]
      ensures nodes == PutAll(old(nodes), conn, old(connections)[conn].org, inventory.nodes, now)
      ensures guests == PutAll(old(guests), conn, old(connections)[conn].org, inventory.vms + inventory.containers, now)
      ensures metrics == old(metrics) + SyncMetrics(old(nodes), conn, old(connections)[conn].org, inventory.nodes, now)
    {
      var org := connections[conn].org;
      connections := connections[conn := connections[conn].(status := "connected", lastConnectedAt := Some(now),
                                                            lastError := None)];
      connections := connections[conn := connections[conn].(version := inventory.version,
                                                            nodeCount := |inventory.nodes|)];
      connections := connections[conn := connections[conn].(vmCount := CountType(inventory.vms, "qemu"),
                                                            containerCount := CountType(inventory.vms, "lxc"))];
      SyncNodes(now, conn, org, inventory.nodes);
      SyncGuests(now, conn, org, inventory.vms + inventory.containers);
    }

    /** Update or add the row of one inventory entry. */
    method PutNode(now: int, conn: nat, org: nat, item: NodeItem) returns (id: nat)
      modifies this`nodes
      ensures nodes == Put(old(nodes), conn, org, item, now)
      ensures FindRow(nodes, conn, item.0) == Some(id)
    {
      var found := FindRow(nodes, conn, item.0);
      var row;
      if found.Some? {
        row := found.value;
      } else {
        row := |nodes|;
        nodes := nodes + [Row(conn, org, item.0, item.1, now)];
      }
      nodes := nodes[row := nodes[row].(data := item.1, seenAt := now)];
      assert nodes[row].conn == conn && nodes[row].key == item.0;
      id := FindRow(nodes, conn, item.0).value;
    }

    method SyncNodes(now: int, conn: nat, org: nat, items: seq<NodeItem>)
      modifies this`nodes, this`metrics
      ensures nodes == PutAll(old(nodes), conn, org, items, now)
      ensures metrics == old(metrics) + SyncMetrics(old(nodes), conn, org, items, now)
    {
      hide Put, FindRow;
      for i := 0 to |items|
        invariant nodes == PutAll(old(nodes), conn, org, items[..i], now)
        invariant metrics == old(metrics) + SyncMetrics(old(nodes), conn, org, items[..i], now)
      {
        assert items[..i + 1][..i] == items[..i];
        var id := PutNode(now, conn, org, items[i]);
        var data := items[i].1;
        if data.cpuUsage.Some? {
          metrics := metrics + [Metric(org, id, "cpu_percent", data.cpuUsage.value * 100.0)];
        }
        if Positive(data.memoryUsed) && Positive(data.memoryTotal) {
          var percent := Percent(data.memoryUsed.value, data.memoryTotal.value);
          metrics := metrics + [Metric(org, id, "memory_percent", percent)];
        }
      }
      assert items[..|items|] == items;
    }

    method SyncGuests(now: int, conn: nat, org: nat, items: seq<GuestItem>)
      modifies this`guests
      ensures guests == PutAll(old(guests), conn, org, items, now)
    {
      for i := 0 to |items|
        invariant guests == PutAll(old(guests), conn, org, items[..i], now)
      {
        var (vmid, data) := items[i];
        var found := FindRow(guests, conn, vmid);
        var row;
        if found.Some? {
          row := found.value;
        } else {
          row := |guests|;
          guests := guests + [Row(conn, org, vmid, data, now)];
        }
        guests := guests[row := guests[row].(data := data, seenAt := now)];
        assert items[..i + 1][..i] == items[..i];
      }
      assert items[..|items|] == items;
    }

    /** Collecting and syncing: what the API's answers leave in the tables. */
    method Poll(now: int, conn: nat, raw: seq<RawNode>, version: Option<string>)
      requires conn < |connections| && UniqueKeys(nodes) && UniqueKeys(guests)
      modifies this
      ensures connections == old(connections)[conn :=
        Connection(old(connections)[conn].org, "connected", Some(now), None, version, NodesBefore(raw, |raw|),
                   GuestsBefore(raw, "qemu", |raw|), 0)]
      ensures NodesAreStored(nodes, conn, raw, version, now)
      ensures OnlyListed(old(nodes), nodes, conn, old(connections)[conn].org, key => ListsNode(raw, key))
      ensures GuestsAreStored(guests, conn, raw, "qemu", now) && GuestsAreStored(guests, conn, raw, "lxc", now)
      ensures OnlyListed(old(guests), guests, conn, old(connections)[conn].org,
                         vmid => Lists(raw, "qemu", vmid) || Lists(raw, "lxc", vmid))
      ensures old(metrics) <= metrics && |metrics| == |old(metrics)| + MetricsFor(raw)
      ensures MetricsAreOf(metrics[|old(metrics)|..], old(connections)[conn].org, nodes, conn, raw, version)
    {
      hide *;
      var inventory := CollectFullInventory(raw, version);
      SyncConnection(now, conn, inventory);
      ghost var org := old(connections)[conn].org;
      InventoryCounts(raw, version);
      InventoryKeys(raw, version);
      MetricCountIs(raw, version);
      MetricsGrowBy(old(nodes), conn, org, inventory.nodes, now);
      SyncAddsMetrics(old(nodes), conn, org, raw, version, now);
      assert metrics[|old(metrics)|..] == SyncMetrics(old(nodes), conn, org, inventory.nodes, now);
      SyncStoresNodes(old(nodes), conn, org, raw, version, now);
      SyncStoresGuests(old(guests), conn, org, raw, version, now, "qemu");
      SyncStoresGuests(old(guests), conn, org, raw, version, now, "lxc");
      SyncTouchesOnly(old(nodes), conn, org, inventory.nodes, now, key => ListsNode(raw, key));
      SyncTouchesOnly(old(guests), conn, org, inventory.vms + inventory.containers, now,
                      vmid => Lists(raw, "qemu", vmid) || Lists(raw, "lxc", vmid));
    }
  }

  /** A vmid listed both as a VM and as a container ends up as the container. */
  lemma {:induction false} AsMapConcat(a: seq<GuestItem>, b: seq<GuestItem>)
    ensures AsMap(a + b) == AsMap(a) + AsMap(b)
  {
    if b == [] {
      assert a + b == a;
    } else {
      assert (a + b)[..|a + b| - 1] == a + b[..|b| - 1];
      AsMapConcat(a, b[..|b| - 1]);
    }
  }
}
