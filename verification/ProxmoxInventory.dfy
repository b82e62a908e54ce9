/** Collecting a Proxmox inventory (backend/app/services/proxmox_service.py:122-195). The API's
    answers are inputs. */
module ProxmoxInventory {
  import opened Prelude

  // ---------------------------------------------------------------- inventory

  /** A guest as the API lists it. Guests without a vmid are not part of this model. */
  datatype RawGuest = RawGuest(vmid: int, name: Option<string>, status: Option<string>, uptime: Option<int>,
                               cpu: Option<real>, mem: Option<nat>, maxmem: Option<nat>, disk: Option<nat>,
                               template: bool)

  /** A node as the API lists it, with the answers to the status, qemu and lxc requests made for it. */
  datatype RawNode = RawNode(name: Option<string>, status: Option<string>, uptime: Option<int>, cpu: Option<real>,
                             mem: Option<nat>, maxmem: Option<nat>, disk: Option<nat>, maxdisk: Option<nat>,
                             cpus: Option<int>,
                             qemu: seq<RawGuest>, lxc: seq<RawGuest>)

  datatype NodeData = NodeData(status: string, uptime: Option<int>, cpuUsage: Option<real>, memoryUsed: Option<nat>,
                               memoryTotal: Option<nat>, diskUsed: Option<nat>, diskTotal: Option<nat>,
                               cpuCount: Option<int>, version: Option<string>)
  datatype GuestData = GuestData(name: Option<string>, vmType: string, status: string, uptime: Option<int>,
                                 cpuUsage: Option<real>, memoryUsed: Option<nat>, memoryTotal: Option<nat>,
                                 diskUsed: Option<nat>, nodeName: string, template: bool)

  type NodeItem = (string, NodeData)
  type GuestItem = (int, GuestData)

  datatype Inventory = Inventory(version: Option<string>, nodes: seq<NodeItem>, vms: seq<GuestItem>,
                                 containers: seq<GuestItem>)

  function OrUnknown(s: Option<string>): string { if s.Some? then s.value else "unknown" }

  predicate Named(n: RawNode) { n.name.Some? && n.name.value != "" }

  function NodeOf(n: RawNode, version: Option<string>): NodeItem
    requires Named(n)
  {
    (n.name.value, NodeData(OrUnknown(n.status), n.uptime, n.cpu, n.mem, n.maxmem, n.disk, n.maxdisk, n.cpus, version))
  }

  function VmOf(g: RawGuest, nodeName: string): GuestItem
  {
    (g.vmid, GuestData(g.name, "qemu", OrUnknown(g.status), g.uptime, g.cpu, g.mem, g.maxmem, g.disk, nodeName,
                       g.template))
  }

  /** Containers carry no template flag. */
  function ContainerOf(g: RawGuest, nodeName: string): GuestItem
  {
    (g.vmid, GuestData(g.name, "lxc", OrUnknown(g.status), g.uptime, g.cpu, g.mem, g.maxmem, g.disk, nodeName, false))
  }

  predicate AllOfType(items: seq<GuestItem>, vmType: string)
  {
    forall i :: 0 <= i < |items| ==> items[i].1.vmType == vmType
  }

  function Vms(guests: seq<RawGuest>, nodeName: string): (r: seq<GuestItem>)
    ensures |r| == |guests| && AllOfType(r, "qemu")
  {
    seq(|guests|, i requires 0 <= i < |guests| => VmOf(guests[i], nodeName))
  }

  function Containers(guests: seq<RawGuest>, nodeName: string): (r: seq<GuestItem>)
    ensures |r| == |guests| && AllOfType(r, "lxc")
  {
    seq(|guests|, i requires 0 <= i < |guests| => ContainerOf(guests[i], nodeName))
  }

  /** The inventory of the raw answers, node by node in the order given; nameless nodes are
      skipped with their guests. */
  function Collected(raw: seq<RawNode>, version: Option<string>): Inventory
  {
    if raw == [] then Inventory(version, [], [], [])
    else
      var before, n := Collected(raw[..|raw| - 1], version), raw[|raw| - 1];
      if !Named(n) then before
      else Inventory(version, before.nodes + [NodeOf(n, version)], before.vms + Vms(n.qemu, n.name.value),
                     before.containers + Containers(n.lxc, n.name.value))
  }

  method CollectFullInventory(raw: seq<RawNode>, version: Option<string>) returns (inv: Inventory)
    ensures inv == Collected(raw, version)
  {
    var nodes: seq<NodeItem>, vms: seq<GuestItem>, containers: seq<GuestItem> := [], [], [];
    for i := 0 to |raw|
      invariant Inventory(version, nodes, vms, containers) == Collected(raw[..i], version)
    {
      assert raw[..i + 1][..i] == raw[..i];
      if Named(raw[i]) {
        nodes := nodes + [NodeOf(raw[i], version)];
        vms := CollectVms(vms, raw[i].qemu, raw[i].name.value);
        containers := CollectContainers(containers, raw[i].lxc, raw[i].name.value);
      }
    }
    assert raw[..|raw|] == raw;
    inv := Inventory(version, nodes, vms, containers);
  }

  method CollectVms(vms: seq<GuestItem>, guests: seq<RawGuest>, nodeName: string) returns (r: seq<GuestItem>)
    ensures r == vms + Vms(guests, nodeName)
  {
    r := vms;
    for j := 0 to |guests|
      invariant r == vms + Vms(guests, nodeName)[..j]
    {
      r := r + [VmOf(guests[j], nodeName)];
    }
  }

  method CollectContainers(containers: seq<GuestItem>, guests: seq<RawGuest>, nodeName: string)
    returns (r: seq<GuestItem>)
    ensures r == containers + Containers(guests, nodeName)
  {
    r := containers;
    for j := 0 to |guests|
      invariant r == containers + Containers(guests, nodeName)[..j]
    {
      r := r + [ContainerOf(guests[j], nodeName)];
    }
  }

  // ---------------------------------------------------------------- what an inventory holds

  /** The entry of a node: its name and, each in its place, the figures the API gave for it. */
  predicate IsNodeEntry(item: NodeItem, n: RawNode, version: Option<string>)
  {
    && n.name == Some(item.0) && item.0 != "" && item.1.version == version
    && item.1.status == (if n.status == None then "unknown" else n.status.value)
    && item.1.uptime == n.uptime && item.1.cpuUsage == n.cpu && item.1.cpuCount == n.cpus
    && item.1.memoryUsed == n.mem && item.1.memoryTotal == n.maxmem
    && item.1.diskUsed == n.disk && item.1.diskTotal == n.maxdisk
  }

  /** The entry of a guest on a node. Only a VM keeps its template flag. */
  predicate IsGuestEntry(item: GuestItem, g: RawGuest, vmType: string, n: RawNode)
  {
    && item.0 == g.vmid && item.1.vmType == vmType && n.name == Some(item.1.nodeName) && item.1.nodeName != ""
    && item.1.status == (if g.status == None then "unknown" else g.status.value)
    && item.1.name == g.name && item.1.uptime == g.uptime && item.1.cpuUsage == g.cpu
    && item.1.memoryUsed == g.mem && item.1.memoryTotal == g.maxmem && item.1.diskUsed == g.disk
    && item.1.template == (vmType == "qemu" && g.template)
  }

  predicate HasName(n: RawNode) { n.name != None && n.name != Some("") }

  /** The guests of a type that a node brings in; without a name it brings none. */
  function GuestsOf(n: RawNode, vmType: string): seq<RawGuest>
  {
    if !HasName(n) then [] else if vmType == "qemu" then n.qemu else n.lxc
  }

  /** How many nodes with a name, and how many guests, come before node i. */
  function NodesBefore(raw: seq<RawNode>, i: nat): nat
    requires i <= |raw|
  {
    if i == 0 then 0 else NodesBefore(raw, i - 1) + (if HasName(raw[i - 1]) then 1 else 0)
  }

  function GuestsBefore(raw: seq<RawNode>, vmType: string, i: nat): nat
    requires i <= |raw|
  {
    if i == 0 then 0 else GuestsBefore(raw, vmType, i - 1) + |GuestsOf(raw[i - 1], vmType)|
  }

  /** The list holds an entry for each node with a name, in their order, and no other. */
  ghost predicate NodesInPlace(nodes: seq<NodeItem>, raw: seq<RawNode>, version: Option<string>)
  {
    && |nodes| == NodesBefore(raw, |raw|)
    && forall i :: 0 <= i < |raw| && HasName(raw[i]) ==>
         NodesBefore(raw, i) < |nodes| && IsNodeEntry(nodes[NodesBefore(raw, i)], raw[i], version)
  }

  /** From position `at` on, the list holds the guests of the node in their order. */
  predicate GuestsAt(items: seq<GuestItem>, at: nat, n: RawNode, vmType: string)
  {
    && at + |GuestsOf(n, vmType)| <= |items|
    && forall j :: 0 <= j < |GuestsOf(n, vmType)| ==> IsGuestEntry(items[at + j], GuestsOf(n, vmType)[j], vmType, n)
  }

  predicate NodeInPlace(items: seq<GuestItem>, raw: seq<RawNode>, vmType: string, i: nat)
    requires i < |raw|
  {
    GuestsAt(items, GuestsBefore(raw, vmType, i), raw[i], vmType)
  }

  /** The list holds the guests of that type of all nodes, in their order, and no other. */
  ghost predicate GuestsInPlace(items: seq<GuestItem>, raw: seq<RawNode>, vmType: string)
  {
    |items| == GuestsBefore(raw, vmType, |raw|) && forall i :: 0 <= i < |raw| ==> NodeInPlace(items, raw, vmType, i)
  }

  lemma {:induction false} BeforePrefix(raw: seq<RawNode>, n: nat, i: nat, vmType: string)
    requires i <= n <= |raw|
    ensures NodesBefore(raw[..n], i) == NodesBefore(raw, i)
    ensures GuestsBefore(raw[..n], vmType, i) == GuestsBefore(raw, vmType, i)
  {
    if i > 0 { BeforePrefix(raw, n, i - 1, vmType); }
  }

  // How the lists grow with the last node.

  lemma NodesGrow(nodes: seq<NodeItem>, more: seq<NodeItem>, raw: seq<RawNode>, version: Option<string>)
    requires raw != [] && NodesInPlace(nodes, raw[..|raw| - 1], version)
    requires var n := raw[|raw| - 1];
      if HasName(n) then |more| == 1 && IsNodeEntry(more[0], n, version) else more == []
    ensures NodesInPlace(nodes + more, raw, version)
  {
    hide IsNodeEntry;
    var last := |raw| - 1;
    BeforePrefix(raw, last, last, "");
    forall i | 0 <= i < |raw| && HasName(raw[i])
      ensures NodesBefore(raw, i) < |nodes + more| &&
        IsNodeEntry((nodes + more)[NodesBefore(raw, i)], raw[i], version)
    {
      if i < last { BeforePrefix(raw, last, i, ""); }
    }
  }

  lemma StillAt(items: seq<GuestItem>, more: seq<GuestItem>, at: nat, n: RawNode, vmType: string)
    ensures GuestsAt(items, at, n, vmType) ==> GuestsAt(items + more, at, n, vmType)
    ensures GuestsAt(more, 0, n, vmType) ==> GuestsAt(items + more, |items|, n, vmType)
  {
    hide IsGuestEntry, GuestsOf;
    if GuestsAt(more, 0, n, vmType) {
      forall j | 0 <= j < |GuestsOf(n, vmType)|
        ensures IsGuestEntry((items + more)[|items| + j], GuestsOf(n, vmType)[j], vmType, n)
      {
        assert (items + more)[|items| + j] == more[0 + j];
      }
    }
  }

  lemma GuestsGrow(items: seq<GuestItem>, more: seq<GuestItem>, raw: seq<RawNode>, vmType: string)
    requires raw != [] && GuestsInPlace(items, raw[..|raw| - 1], vmType)
    requires |more| == |GuestsOf(raw[|raw| - 1], vmType)| && GuestsAt(more, 0, raw[|raw| - 1], vmType)
    ensures GuestsInPlace(items + more, raw, vmType)
  {
    hide GuestsAt, GuestsOf;
    var last := |raw| - 1;
    BeforePrefix(raw, last, last, vmType);
    forall i | 0 <= i < |raw| ensures NodeInPlace(items + more, raw, vmType, i) {
      StillAt(items, more, GuestsBefore(raw, vmType, i), raw[i], vmType);
      if i < last {
        BeforePrefix(raw, last, i, vmType);
        assert NodeInPlace(items, raw[..last], vmType, i);
      }
    }
  }

  /** An inventory holds one entry for every node with a name, one VM for every qemu guest and one
      container for every lxc guest of such a node, in the order of the answers, and no other. */
  lemma {:induction false} InventoryIsExact(raw: seq<RawNode>, version: Option<string>)
    ensures var inv := Collected(raw, version);
      && inv.version == version && NodesInPlace(inv.nodes, raw, version)
      && GuestsInPlace(inv.vms, raw, "qemu") && GuestsInPlace(inv.containers, raw, "lxc")
  {
    hide NodesInPlace, GuestsInPlace, GuestsAt, IsNodeEntry, NodeOf, Vms, Containers, GuestsOf;
    if raw == [] {
      EmptyInventory(version);
    } else {
      var n := raw[|raw| - 1];
      var before := Collected(raw[..|raw| - 1], version);
      InventoryIsExact(raw[..|raw| - 1], version);
      NodeBrings(n, version);
      var nodes: seq<NodeItem>, vms: seq<GuestItem>, containers: seq<GuestItem> := [], [], [];
      if Named(n) {
        nodes, vms, containers := [NodeOf(n, version)], Vms(n.qemu, n.name.value), Containers(n.lxc, n.name.value);
      }
      assert Collected(raw, version) ==
        Inventory(version, before.nodes + nodes, before.vms + vms, before.containers + containers);
      NodesGrow(before.nodes, nodes, raw, version);
      GuestsGrow(before.vms, vms, raw, "qemu");
      GuestsGrow(before.containers, containers, raw, "lxc");
    }
  }

  // What one node adds.
  lemma NodeBrings(n: RawNode, version: Option<string>)
    ensures Named(n) <==> HasName(n)
    ensures !Named(n) ==> forall vmType :: GuestsOf(n, vmType) == [] && GuestsAt([], 0, n, vmType)
    ensures Named(n) ==>
      && IsNodeEntry(NodeOf(n, version), n, version)
      && |Vms(n.qemu, n.name.value)| == |GuestsOf(n, "qemu")| && GuestsAt(Vms(n.qemu, n.name.value), 0, n, "qemu")
      && |Containers(n.lxc, n.name.value)| == |GuestsOf(n, "lxc")|
      && GuestsAt(Containers(n.lxc, n.name.value), 0, n, "lxc")
  {
  }

  lemma EmptyInventory(version: Option<string>)
    ensures NodesInPlace([], [], version) && forall vmType :: GuestsInPlace([], [], vmType)
  {
  }

  // ---------------------------------------------------------------- which entry comes later

  lemma {:induction false} GuestOwner(raw: seq<RawNode>, vmType: string, n: nat, p: nat) returns (i: nat, j: nat)
    requires n <= |raw| && p < GuestsBefore(raw, vmType, n)
    ensures i < n && j < |GuestsOf(raw[i], vmType)| && p == GuestsBefore(raw, vmType, i) + j
  {
    hide GuestsOf;
    if p < GuestsBefore(raw, vmType, n - 1) {
      i, j := GuestOwner(raw, vmType, n - 1, p);
    } else {
      i, j := n - 1, p - GuestsBefore(raw, vmType, n - 1);
    }
  }

  lemma {:induction false} GuestsBeforeGrows(raw: seq<RawNode>, vmType: string, i: nat, k: nat)
    requires i < k <= |raw|
    ensures GuestsBefore(raw, vmType, i) + |GuestsOf(raw[i], vmType)| <= GuestsBefore(raw, vmType, k)
  {
    hide GuestsOf;
    if i + 1 < k { GuestsBeforeGrows(raw, vmType, i, k - 1); }
  }

  lemma {:induction false} NodeOwner(raw: seq<RawNode>, n: nat, p: nat) returns (i: nat)
    requires n <= |raw| && p < NodesBefore(raw, n)
    ensures i < n && HasName(raw[i]) && p == NodesBefore(raw, i)
  {
    if p < NodesBefore(raw, n - 1) { i := NodeOwner(raw, n - 1, p); } else { i := n - 1; }
  }

  lemma {:induction false} NodesBeforeGrows(raw: seq<RawNode>, i: nat, k: nat)
    requires i <= k <= |raw|
    ensures NodesBefore(raw, i) <= NodesBefore(raw, k)
  {
    if i < k { NodesBeforeGrows(raw, i, k - 1); }
  }

  /** No guest of that type that comes behind guest j of node i has its vmid. */
  ghost predicate LastOfVmid(raw: seq<RawNode>, vmType: string, i: nat, j: nat, vmid: int)
  {
    forall k, l :: 0 <= k < |raw| && 0 <= l < |GuestsOf(raw[k], vmType)| && (k > i || (k == i && l > j)) ==>
      GuestsOf(raw[k], vmType)[l].vmid != vmid
  }

  /** Some guest of that type has the vmid. */
  ghost predicate Lists(raw: seq<RawNode>, vmType: string, vmid: int)
  {
    exists k, l :: 0 <= k < |raw| && 0 <= l < |GuestsOf(raw[k], vmType)| && GuestsOf(raw[k], vmType)[l].vmid == vmid
  }

  lemma EntryOf(items: seq<GuestItem>, raw: seq<RawNode>, vmType: string, i: nat, j: nat)
    requires GuestsInPlace(items, raw, vmType) && i < |raw| && j < |GuestsOf(raw[i], vmType)|
    ensures var q := GuestsBefore(raw, vmType, i) + j;
      q < |items| && IsGuestEntry(items[q], GuestsOf(raw[i], vmType)[j], vmType, raw[i]) &&
      items[q].0 == GuestsOf(raw[i], vmType)[j].vmid
  {
    assert NodeInPlace(items, raw, vmType, i);
  }

  lemma LastInList(items: seq<GuestItem>, raw: seq<RawNode>, vmType: string, i: nat, j: nat, q: nat)
    requires GuestsInPlace(items, raw, vmType) && i < |raw| && j < |GuestsOf(raw[i], vmType)|
    requires LastOfVmid(raw, vmType, i, j, GuestsOf(raw[i], vmType)[j].vmid)
    requires GuestsBefore(raw, vmType, i) + j < q < |items|
    ensures items[q].0 != GuestsOf(raw[i], vmType)[j].vmid
  {
    hide GuestsOf;
    var k, l := GuestOwner(raw, vmType, |raw|, q);
    if k < i { GuestsBeforeGrows(raw, vmType, k, i); }
    EntryOf(items, raw, vmType, k, l);
  }

  lemma AbsentFromList(items: seq<GuestItem>, raw: seq<RawNode>, vmType: string, vmid: int, q: nat)
    requires GuestsInPlace(items, raw, vmType) && q < |items| && !Lists(raw, vmType, vmid)
    ensures items[q].0 != vmid
  {
    hide GuestsOf;
    var k, l := GuestOwner(raw, vmType, |raw|, q);
    EntryOf(items, raw, vmType, k, l);
  }

  function CountType(items: seq<GuestItem>, vmType: string): nat
  {
    if items == [] then 0
    else CountType(items[..|items| - 1], vmType) + (if items[|items| - 1].1.vmType == vmType then 1 else 0)
  }

  lemma {:induction false} CountAll(items: seq<GuestItem>, vmType: string, other: string)
    requires vmType != other && AllOfType(items, vmType)
    ensures CountType(items, vmType) == |items| && CountType(items, other) == 0
  {
    if items != [] { CountAll(items[..|items| - 1], vmType, other); }
  }

  lemma AllOfConcat(a: seq<GuestItem>, b: seq<GuestItem>, vmType: string)
    requires AllOfType(a, vmType) && AllOfType(b, vmType)
    ensures AllOfType(a + b, vmType)
  {
  }

  lemma {:induction false} CollectedTypes(raw: seq<RawNode>, version: Option<string>)
    ensures var inv := Collected(raw, version);
      AllOfType(inv.vms, "qemu") && AllOfType(inv.containers, "lxc")
  {
    if raw != [] {
      CollectedTypes(raw[..|raw| - 1], version);
      var before, n := Collected(raw[..|raw| - 1], version), raw[|raw| - 1];
      if Named(n) {
        AllOfConcat(before.vms, Vms(n.qemu, n.name.value), "qemu");
        AllOfConcat(before.containers, Containers(n.lxc, n.name.value), "lxc");
      }
    }
  }

  /** The container count stored on a connection counts the lxc rows among the qemu guests: it
      is always 0, and so it is right exactly when the inventory has no container. */
  lemma ContainerCountIsZero(raw: seq<RawNode>, version: Option<string>)
    ensures var inv := Collected(raw, version);
      && CountType(inv.vms, "lxc") == 0 && CountType(inv.vms, "qemu") == |inv.vms|
      && (CountType(inv.vms, "lxc") == CountType(inv.containers, "lxc") <==> inv.containers == [])
  {
    CollectedTypes(raw, version);
    CountAll(Collected(raw, version).vms, "qemu", "lxc");
    CountAll(Collected(raw, version).containers, "lxc", "qemu");
  }
}
