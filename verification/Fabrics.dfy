/**
 Matter fabrics from two sources (`Fabrics` in internal/matter/fabrics.go): each mesh
 device's registration, and the browse of the LAN. Nodes are grouped in maps
 and then sorted, so the question is whether the order of the maps shows.
 */
module Fabrics {
  import opened Wrappers
  import opened Text
  import opened Identities
  import opened Sorting
  import Hex

  const OPERATIONAL_SERVICE := "_matter._tcp"
  const LOCAL_SUFFIX := ".local."

  datatype Service = Service(kind: string, instance: string, port: Option<int>)

  datatype Device = Device(extAddress: string, omrAddress: string, services: seq<Service>)

  datatype Instance = Instance(name: string, host: string, port: int, addresses: seq<string>)

  datatype Node = Node(nodeId: string, host: string, port: Option<int>, addresses: seq<string>, extAddress: string,
                       onMesh: bool)

  datatype Fabric = Fabric(id: string, nodes: seq<Node>, nodeCount: nat, meshCount: nat)

  /** A node one source offers for one fabric. */
  datatype Offer = Offer(fabric: string, node: Node)

  predicate SameKey(a: Offer, b: Offer) { a.fabric == b.fabric && a.node.nodeId == b.node.nodeId }

  // ---------------------------------------------------------------- what the sources offer

  function ServiceOffer(d: Device, s: Service): Option<Offer> {
    if s.kind != OPERATIONAL_SERVICE then None
    else
      match Identity(s.instance)
      case None => None
      case Some((fabric, node)) =>
        var ext := ToLower(d.extAddress);
        var addresses := if d.omrAddress != "" then [d.omrAddress] else [];
        Some(Offer(fabric, Node(node, ext + LOCAL_SUFFIX, s.port, addresses, ext, true)))
  }

  /** The hostnames of Thread devices are their extended addresses. */
  function HostExtAddress(host: string): Option<string> {
    var lower := ToLower(host);
    var n := |lower| - |LOCAL_SUFFIX|;
    var name := if n >= 0 && lower[n..] == LOCAL_SUFFIX then lower[..n] else lower;
    if |name| == 16 && Hex.IsHex(name) then Some(name) else None
  }

  function InstanceOffer(i: Instance, onMesh: set<string>): Option<Offer> {
    match Identity(i.name)
    case None => None
    case Some((fabric, node)) =>
      var ext := HostExtAddress(i.host);
      Some(Offer(fabric, Node(node, i.host, if i.port > 0 then Some(i.port) else None, i.addresses,
                              if ext.Some? then ext.value else "", ext.Some? && ext.value in onMesh)))
  }

  function OnMesh(devices: seq<Device>): set<string> {
    set i | 0 <= i < |devices| && devices[i].extAddress != "" :: ToLower(devices[i].extAddress)
  }

  function Listed(offer: Option<Offer>): seq<Offer> { if offer.None? then [] else [offer.value] }

  function ServiceOffers(d: Device, services: seq<Service>): seq<Offer> {
    if services == [] then []
    else ServiceOffers(d, services[..|services| - 1]) + Listed(ServiceOffer(d, services[|services| - 1]))
  }

  function DeviceOffers(devices: seq<Device>): seq<Offer> {
    if devices == [] then []
    else
      var d := devices[|devices| - 1];
      DeviceOffers(devices[..|devices| - 1]) + if d.extAddress == "" then [] else ServiceOffers(d, d.services)
  }

  function InstanceOffers(instances: seq<Instance>, onMesh: set<string>): seq<Offer> {
    if instances == [] then []
    else
      var last := |instances| - 1;
      InstanceOffers(instances[..last], onMesh) + Listed(InstanceOffer(instances[last], onMesh))
  }

  /** The registry first, the browse after it. */
  function Offers(instances: seq<Instance>, devices: seq<Device>): seq<Offer> {
    DeviceOffers(devices) + InstanceOffers(instances, OnMesh(devices))
  }

  // ---------------------------------------------------------------- what an offer says

  /** A registered service: only operational ones count, and the node is on the mesh under its device's address. */
  lemma RegistryOffer(d: Device, s: Service, fabric: string, node: string)
    requires IsInstanceName(s.instance, fabric, node)
    ensures var ext := ToLower(d.extAddress);
            ServiceOffer(d, s) ==
            if s.kind != "_matter._tcp" then None
            else Some(Offer(ToUpper(fabric),
                            Node(FormatId(Hex.Number(node)), ext + ".local.", s.port,
                                 if d.omrAddress == "" then [] else [d.omrAddress], ext, true)))
  {
    IdentityReadsBack(fabric, node);
  }

  /** The host is a Thread device's: its address in 16 digits, alone or in the local domain. */
  predicate IsThreadHost(host: string, name: string) {
    |name| == 16 && Hex.IsHex(name) && (ToLower(host) == name || ToLower(host) == name + ".local.")
  }

  lemma HostIsThread(host: string, name: string)
    ensures HostExtAddress(host) == Some(name) <==> IsThreadHost(host, name)
  {
    var lower := ToLower(host);
    var n := |lower| - |LOCAL_SUFFIX|;
    if n >= 0 && lower[n..] == LOCAL_SUFFIX {
      assert lower == lower[..n] + LOCAL_SUFFIX;
      assert lower[|lower| - 1] == '.' && Hex.Value('.').None?;
    }
    if lower == name + LOCAL_SUFFIX {
      assert lower[n..] == LOCAL_SUFFIX && lower[..n] == name;
    }
  }

  /** A browsed instance: host, port and addresses as they were found; on the mesh if a listed device has its host. */
  lemma BrowseOffer(i: Instance, devices: seq<Device>, fabric: string, node: string)
    requires IsInstanceName(i.name, fabric, node)
    ensures var o := InstanceOffer(i, OnMesh(devices));
            && o.Some? && o.value.fabric == ToUpper(fabric)
            && var n := o.value.node;
               && n.nodeId == FormatId(Hex.Number(node)) && n.host == i.host && n.addresses == i.addresses
               && n.port == (if i.port > 0 then Some(i.port) else None)
               && (forall name: string :: IsThreadHost(i.host, name) ==>
                     n.extAddress == name
                     && (n.onMesh <==> exists d :: d in devices && d.extAddress != "" && ToLower(d.extAddress) == name))
               && ((forall name: string :: !IsThreadHost(i.host, name)) ==> n.extAddress == "" && !n.onMesh)
  {
    IdentityReadsBack(fabric, node);
    forall name: string
      ensures HostExtAddress(i.host) == Some(name) <==> IsThreadHost(i.host, name)
    {
      HostIsThread(i.host, name);
    }
    if HostExtAddress(i.host).Some? {
      var name := HostExtAddress(i.host).value;
      assert IsThreadHost(i.host, name);
      MeshHas(devices, name);
    }
  }

  lemma MeshHas(devices: seq<Device>, ext: string)
    ensures ext in OnMesh(devices) <==> exists d :: d in devices && d.extAddress != "" && ToLower(d.extAddress) == ext
  {
    if ext in OnMesh(devices) {
      var i :| 0 <= i < |devices| && devices[i].extAddress != "" && ext == ToLower(devices[i].extAddress);
      assert devices[i] in devices;
    }
    if d :| d in devices && d.extAddress != "" && ToLower(d.extAddress) == ext {
      var i :| 0 <= i < |devices| && devices[i] == d;
    }
  }

  /** A name that is no identity offers nothing. */
  lemma NoOffer(d: Device, s: Service, i: Instance, devices: seq<Device>)
    ensures Identity(s.instance).None? ==> ServiceOffer(d, s) == None
    ensures Identity(i.name).None? ==> InstanceOffer(i, OnMesh(devices)) == None
  {
  }

  // ---------------------------------------------------------------- grouping

  /** No earlier offer is of the same node of the same fabric. */
  predicate IsFirst(offers: seq<Offer>, i: nat)
    requires i < |offers|
  {
    forall j :: 0 <= j < i ==> !SameKey(offers[j], offers[i])
  }

  predicate Wins(offers: seq<Offer>, o: Offer) { exists i :: 0 <= i < |offers| && offers[i] == o && IsFirst(offers, i) }

  /** The groups hold the first offer of every node of every fabric, each once. */
  ghost predicate Grouped(offers: seq<Offer>, groups: map<string, seq<Node>>) {
    && (forall o: Offer :: o.fabric in groups && o.node in groups[o.fabric] <==> Wins(offers, o))
    && (forall f :: f in groups ==> groups[f] != [] && DistinctIds(groups[f]))
  }

  predicate DistinctIds(nodes: seq<Node>) { forall i, j :: 0 <= i < j < |nodes| ==> nodes[i].nodeId != nodes[j].nodeId }

  /** The keys already taken. */
  ghost predicate Taken(offers: seq<Offer>, seen: set<(string, string)>) {
    forall f: string, n: string :: (f, n) in seen <==>
      exists i :: 0 <= i < |offers| && offers[i].fabric == f && offers[i].node.nodeId == n
  }

  lemma WinsGrows(offers: seq<Offer>, last: Offer, o: Offer)
    ensures Wins(offers + [last], o) <==>
            Wins(offers, o) || (o == last && forall j :: 0 <= j < |offers| ==> !SameKey(offers[j], last))
  {
    var grown, n := offers + [last], |offers|;
    assert grown[n] == last && forall i :: 0 <= i < n ==> grown[i] == offers[i];
    if Wins(offers, o) {
      var i :| 0 <= i < n && offers[i] == o && IsFirst(offers, i);
      assert grown[i] == o && IsFirst(grown, i);
    }
    if i :| 0 <= i < n && grown[i] == o && IsFirst(grown, i) {
      assert offers[i] == o && IsFirst(offers, i);
    }
    if forall j :: 0 <= j < n ==> !SameKey(offers[j], last) {
      assert IsFirst(grown, n);
    }
  }

  /** Puts one offer into its group unless its node is there already. */
  method Add(ghost offers: seq<Offer>, o: Offer, groups: map<string, seq<Node>>, seen: set<(string, string)>)
    returns (groups': map<string, seq<Node>>, seen': set<(string, string)>)
    requires Grouped(offers, groups) && Taken(offers, seen)
    ensures Grouped(offers + [o], groups') && Taken(offers + [o], seen')
  {
    var key := (o.fabric, o.node.nodeId);
    TakenGrows(offers, o, seen);
    if key in seen {
      SkipGroups(offers, o, groups);
      return groups, seen;
    }
    var nodes := if o.fabric in groups then groups[o.fabric] else [];
    AddGroups(offers, o, groups);
    return groups[o.fabric := nodes + [o.node]], seen + {key};
  }

  lemma TakenGrows(offers: seq<Offer>, o: Offer, seen: set<(string, string)>)
    requires Taken(offers, seen)
    ensures Taken(offers + [o], seen + {(o.fabric, o.node.nodeId)})
    ensures (o.fabric, o.node.nodeId) in seen <==> exists j :: 0 <= j < |offers| && SameKey(offers[j], o)
  {
    var grown := offers + [o];
    assert grown[|offers|] == o && forall i :: 0 <= i < |offers| ==> grown[i] == offers[i];
    if (o.fabric, o.node.nodeId) in seen {
      var i :| 0 <= i < |offers| && offers[i].fabric == o.fabric && offers[i].node.nodeId == o.node.nodeId;
      assert SameKey(offers[i], o);
    }
    forall f: string, n: string
      ensures (f, n) in seen + {(o.fabric, o.node.nodeId)} <==>
              exists i :: 0 <= i < |grown| && grown[i].fabric == f && grown[i].node.nodeId == n
    {
      if (f, n) in seen {
        var i :| 0 <= i < |offers| && offers[i].fabric == f && offers[i].node.nodeId == n;
        assert grown[i].fabric == f && grown[i].node.nodeId == n;
      }
    }
  }

  lemma SkipGroups(offers: seq<Offer>, o: Offer, groups: map<string, seq<Node>>)
    requires Grouped(offers, groups) && exists j :: 0 <= j < |offers| && SameKey(offers[j], o)
    ensures Grouped(offers + [o], groups)
  {
    forall p: Offer
      ensures Wins(offers + [o], p) <==> Wins(offers, p)
    {
      WinsGrows(offers, o, p);
    }
  }

  lemma AddGroups(offers: seq<Offer>, o: Offer, groups: map<string, seq<Node>>)
    requires Grouped(offers, groups) && forall j :: 0 <= j < |offers| ==> !SameKey(offers[j], o)
    ensures var nodes := if o.fabric in groups then groups[o.fabric] else [];
            Grouped(offers + [o], groups[o.fabric := nodes + [o.node]])
  {
    var nodes := if o.fabric in groups then groups[o.fabric] else [];
    var after := groups[o.fabric := nodes + [o.node]];
    forall p: Offer
      ensures p.fabric in after && p.node in after[p.fabric] <==> Wins(offers + [o], p)
    {
      WinsGrows(offers, o, p);
    }
    forall i | 0 <= i < |nodes|
      ensures nodes[i].nodeId != o.node.nodeId
    {
      assert Wins(offers, Offer(o.fabric, nodes[i]));
    }
  }

  /** Adds what one device registered. */
  method AddServices(ghost offers: seq<Offer>, d: Device, groups: map<string, seq<Node>>, seen: set<(string, string)>)
    returns (groups': map<string, seq<Node>>, seen': set<(string, string)>)
    requires Grouped(offers, groups) && Taken(offers, seen)
    ensures Grouped(offers + ServiceOffers(d, d.services), groups')
            && Taken(offers + ServiceOffers(d, d.services), seen')
  {
    groups', seen' := groups, seen;
    assert offers + [] == offers;
    for j := 0 to |d.services|
      invariant Grouped(offers + ServiceOffers(d, d.services[..j]), groups')
      invariant Taken(offers + ServiceOffers(d, d.services[..j]), seen')
    {
      assert d.services[..j + 1][..j] == d.services[..j];
      ghost var soFar := ServiceOffers(d, d.services[..j]);
      groups', seen' := AddListed(offers + soFar, ServiceOffer(d, d.services[j]), groups', seen');
      assert offers + (soFar + Listed(ServiceOffer(d, d.services[j]))) ==
             offers + soFar + Listed(ServiceOffer(d, d.services[j]));
    }
    assert d.services[..|d.services|] == d.services;
  }

  /** Adds an offer if the name could be decoded. */
  method AddListed(ghost offers: seq<Offer>, offer: Option<Offer>, groups: map<string, seq<Node>>,
                   seen: set<(string, string)>)
    returns (groups': map<string, seq<Node>>, seen': set<(string, string)>)
    requires Grouped(offers, groups) && Taken(offers, seen)
    ensures Grouped(offers + Listed(offer), groups') && Taken(offers + Listed(offer), seen')
  {
    groups', seen' := groups, seen;
    assert offers + [] == offers;
    if offer.Some? {
      groups', seen' := Add(offers, offer.value, groups, seen);
    }
  }

  /** The first loop: the registry, and which extended addresses are on the mesh. */
  method GroupDevices(devices: seq<Device>)
    returns (groups: map<string, seq<Node>>, seen: set<(string, string)>, onMesh: set<string>)
    ensures Grouped(DeviceOffers(devices), groups) && Taken(DeviceOffers(devices), seen)
    ensures onMesh == OnMesh(devices)
  {
    groups, seen, onMesh := map[], {}, {};
    for i := 0 to |devices|
      invariant Grouped(DeviceOffers(devices[..i]), groups) && Taken(DeviceOffers(devices[..i]), seen)
      invariant onMesh == OnMesh(devices[..i])
    {
      OneMoreOnMesh(devices, i);
      assert devices[..i + 1][..i] == devices[..i];
      ghost var soFar := DeviceOffers(devices[..i]);
      assert soFar + [] == soFar;
      if devices[i].extAddress == "" {
        continue;
      }
      onMesh := onMesh + {ToLower(devices[i].extAddress)};
      groups, seen := AddServices(soFar, devices[i], groups, seen);
    }
    assert devices[..|devices|] == devices;
  }

  /** Groups both sources' offers, the registry's first. */
  method Group(instances: seq<Instance>, devices: seq<Device>) returns (groups: map<string, seq<Node>>)
    ensures Grouped(Offers(instances, devices), groups)
  {
    var seen, onMesh;
    groups, seen, onMesh := GroupDevices(devices);
    ghost var registry := DeviceOffers(devices);
    assert registry + InstanceOffers([], onMesh) == registry;
    for i := 0 to |instances|
      invariant Grouped(registry + InstanceOffers(instances[..i], onMesh), groups)
      invariant Taken(registry + InstanceOffers(instances[..i], onMesh), seen)
    {
      assert instances[..i + 1][..i] == instances[..i];
      ghost var soFar, offer := InstanceOffers(instances[..i], onMesh), InstanceOffer(instances[i], onMesh);
      groups, seen := AddListed(registry + soFar, InstanceOffer(instances[i], onMesh), groups, seen);
      assert registry + (soFar + Listed(offer)) == registry + soFar + Listed(offer);
    }
    assert instances[..|instances|] == instances;
  }

  lemma OneMoreOnMesh(devices: seq<Device>, i: nat)
    requires i < |devices|
    ensures OnMesh(devices[..i + 1]) ==
            OnMesh(devices[..i]) + if devices[i].extAddress == "" then {} else {ToLower(devices[i].extAddress)}
  {
    var before, after := devices[..i], devices[..i + 1];
    assert after[i] == devices[i] && forall j :: 0 <= j < i ==> after[j] == before[j];
    forall ext | ext in OnMesh(before)
      ensures ext in OnMesh(after)
    {
      var j :| 0 <= j < |before| && before[j].extAddress != "" && ext == ToLower(before[j].extAddress);
      assert ToLower(after[j].extAddress) == ext;
    }
    if devices[i].extAddress != "" {
      assert ToLower(after[i].extAddress) in OnMesh(after);
    }
  }

  // ---------------------------------------------------------------- ordering

  /**
   What nodes are compared by. Every node in a group has at most 16 digits
   (OffersAreShort), so nothing else is ever ranked.
   */
  function NodeRank(node: Node): string {
    if |Hex.TrimHexPrefix(node.nodeId)| <= 16 then NodeOrder(node.nodeId) else node.nodeId
  }

  predicate NodeBefore(a: Node, b: Node) {
    if a.onMesh != b.onMesh then a.onMesh else Less(NodeRank(a), NodeRank(b))
  }

  predicate FabricBefore(a: Fabric, b: Fabric) {
    if a.meshCount != b.meshCount then a.meshCount > b.meshCount else Less(a.id, b.id)
  }

  function MeshNodes(nodes: seq<Node>): nat {
    if nodes == [] then 0 else MeshNodes(nodes[..|nodes| - 1]) + if nodes[|nodes| - 1].onMesh then 1 else 0
  }

  /** The fabric lists exactly the winning nodes, in order, and its counts are theirs. */
  ghost predicate IsFabric(offers: seq<Offer>, f: Fabric) {
    && f.nodes != [] && Ascending(f.nodes, NodeBefore)
    && (forall n: Node :: n in f.nodes <==> Wins(offers, Offer(f.id, n)))
    && f.nodeCount == |f.nodes| && f.meshCount == MeshNodes(f.nodes)
  }

  ghost predicate HasFabric(fabrics: seq<Fabric>, id: string) { exists k :: 0 <= k < |fabrics| && fabrics[k].id == id }

  /** The whole answer: every fabric somebody offers a node of, each once, in order. */
  ghost predicate Exact(offers: seq<Offer>, fabrics: seq<Fabric>) {
    && Ascending(fabrics, FabricBefore)
    && (forall f :: f in fabrics ==> IsFabric(offers, f))
    && (forall o: Offer :: Wins(offers, o) ==> HasFabric(fabrics, o.fabric))
  }

  /** The short form of some 16 hexadecimal digits. */
  ghost predicate IsShort(id: string) {
    exists digits: string :: |digits| == 16 && Hex.IsHex(digits) && id == Short(digits)
  }

  ghost predicate AllShort(offers: seq<Offer>) { forall i :: 0 <= i < |offers| ==> IsShort(offers[i].node.nodeId) }

  lemma {:induction false} ServicesAreShort(d: Device, services: seq<Service>)
    ensures AllShort(ServiceOffers(d, services))
  {
    if services != [] {
      ServicesAreShort(d, services[..|services| - 1]);
    }
  }

  lemma {:induction false} DevicesAreShort(devices: seq<Device>)
    ensures AllShort(DeviceOffers(devices))
  {
    if devices != [] {
      DevicesAreShort(devices[..|devices| - 1]);
      ServicesAreShort(devices[|devices| - 1], devices[|devices| - 1].services);
    }
  }

  lemma {:induction false} InstancesAreShort(instances: seq<Instance>, onMesh: set<string>)
    ensures AllShort(InstanceOffers(instances, onMesh))
  {
    if instances != [] {
      InstancesAreShort(instances[..|instances| - 1], onMesh);
    }
  }

  lemma OffersAreShort(instances: seq<Instance>, devices: seq<Device>)
    ensures AllShort(Offers(instances, devices))
  {
    DevicesAreShort(devices);
    InstancesAreShort(instances, OnMesh(devices));
  }

  lemma ShortsAreOrdered(a: Node, b: Node)
    requires IsShort(a.nodeId) && IsShort(b.nodeId) && a.nodeId != b.nodeId
    ensures NodeBefore(a, b) || NodeBefore(b, a)
  {
    var m: string :| |m| == 16 && Hex.IsHex(m) && a.nodeId == Short(m);
    var n: string :| |n| == 16 && Hex.IsHex(n) && b.nodeId == Short(n);
    NodeOrderIsNumeric(m, n);
    NodeOrderIsNumeric(n, m);
  }

  lemma GroupIsComparable(offers: seq<Offer>, groups: map<string, seq<Node>>, id: string)
    requires AllShort(offers) && Grouped(offers, groups) && id in groups
    ensures Comparable(groups[id], NodeBefore)
  {
    var nodes := groups[id];
    forall i, j | 0 <= i < j < |nodes|
      ensures NodeBefore(nodes[i], nodes[j]) || NodeBefore(nodes[j], nodes[i])
    {
      assert Wins(offers, Offer(id, nodes[i])) && Wins(offers, Offer(id, nodes[j]));
      ShortsAreOrdered(nodes[i], nodes[j]);
    }
  }

  lemma NodeOrderIsStrict()
    ensures Transitive(NodeBefore) && Asymmetric(NodeBefore)
  {
    forall a: Node, b: Node, c: Node | NodeBefore(a, b) && NodeBefore(b, c)
      ensures NodeBefore(a, c)
    {
      if Less(NodeRank(a), NodeRank(b)) && Less(NodeRank(b), NodeRank(c)) {
        LessIsTransitive(NodeRank(a), NodeRank(b), NodeRank(c));
      }
    }
    forall a: Node, b: Node | NodeBefore(a, b)
      ensures !NodeBefore(b, a)
    {
      LessIsTotal(NodeRank(a), NodeRank(b));
    }
  }

  lemma FabricOrderIsStrict()
    ensures Transitive(FabricBefore) && Asymmetric(FabricBefore)
  {
    forall a: Fabric, b: Fabric, c: Fabric | FabricBefore(a, b) && FabricBefore(b, c)
      ensures FabricBefore(a, c)
    {
      if Less(a.id, b.id) && Less(b.id, c.id) {
        LessIsTransitive(a.id, b.id, c.id);
      }
    }
    forall a: Fabric, b: Fabric | FabricBefore(a, b)
      ensures !FabricBefore(b, a)
    {
      LessIsTotal(a.id, b.id);
    }
  }

  /** Sorts one group and counts it. */
  method Finish(ghost offers: seq<Offer>, id: string, ghost groups: map<string, seq<Node>>, nodes: seq<Node>)
    returns (f: Fabric)
    requires AllShort(offers) && Grouped(offers, groups) && id in groups && groups[id] == nodes
    ensures f.id == id && IsFabric(offers, f)
  {
    GroupIsComparable(offers, groups, id);
    NodeOrderIsStrict();
    SortAscends(nodes, NodeBefore);
    var sorted := Sort(nodes, NodeBefore);
    var mesh := 0;
    for i := 0 to |sorted|
      invariant mesh == MeshNodes(sorted[..i])
    {
      assert sorted[..i + 1][..i] == sorted[..i];
      if sorted[i].onMesh {
        mesh := mesh + 1;
      }
    }
    assert sorted[..|sorted|] == sorted;
    f := Fabric(id, sorted, |sorted|, mesh);
    forall n: Node
      ensures n in f.nodes <==> Wins(offers, Offer(id, n))
    {
      var o := Offer(id, n);
      assert o.fabric in groups && o.node in groups[o.fabric] <==> Wins(offers, o);
    }
  }

  /** `Fabrics`, with the groups finished in any order. */
  method Fabrics(instances: seq<Instance>, devices: seq<Device>) returns (fabrics: seq<Fabric>)
    ensures Exact(Offers(instances, devices), fabrics)
  {
    ghost var offers := Offers(instances, devices);
    OffersAreShort(instances, devices);
    var groups := Group(instances, devices);
    var built: seq<Fabric> := [];
    var left := groups.Keys;
    while left != {}
      invariant left <= groups.Keys
      invariant forall k :: 0 <= k < |built| ==> built[k].id in groups.Keys - left && IsFabric(offers, built[k])
      invariant forall id :: id in groups.Keys - left ==> HasFabric(built, id)
      invariant OneEach(built)
    {
      var id := AnyOf(left);
      var f := Finish(offers, id, groups, groups[id]);
      OneMoreFabric(built, f);
      built, left := built + [f], left - {id};
    }
    fabrics := Sort(built, FabricBefore);
    SortedFabrics(offers, groups, built);
  }

  predicate OneEach(fabrics: seq<Fabric>) { forall i, j :: 0 <= i < j < |fabrics| ==> fabrics[i].id != fabrics[j].id }

  lemma OneMoreFabric(built: seq<Fabric>, f: Fabric)
    ensures HasFabric(built + [f], f.id) && forall id :: HasFabric(built, id) ==> HasFabric(built + [f], id)
  {
    var grown := built + [f];
    assert grown[|built|] == f && forall k :: 0 <= k < |built| ==> grown[k] == built[k];
    forall id | HasFabric(built, id)
      ensures HasFabric(grown, id)
    {
      var k :| 0 <= k < |built| && built[k].id == id;
      assert grown[k].id == id;
    }
  }

  lemma SortedFabrics(offers: seq<Offer>, groups: map<string, seq<Node>>, built: seq<Fabric>)
    requires Grouped(offers, groups) && OneEach(built)
    requires forall k :: 0 <= k < |built| ==> IsFabric(offers, built[k])
    requires forall id :: id in groups ==> HasFabric(built, id)
    ensures Exact(offers, Sort(built, FabricBefore))
  {
    var fabrics := Sort(built, FabricBefore);
    FabricOrderIsStrict();
    forall i, j | 0 <= i < j < |built|
      ensures FabricBefore(built[i], built[j]) || FabricBefore(built[j], built[i])
    {
      LessIsTotal(built[i].id, built[j].id);
    }
    SortAscends(built, FabricBefore);
    forall o: Offer | Wins(offers, o)
      ensures HasFabric(fabrics, o.fabric)
    {
      assert o.fabric in groups;
      var k :| 0 <= k < |built| && built[k].id == o.fabric;
      assert built[k] in fabrics;
    }
  }

  // ---------------------------------------------------------------- what the answer says

  /** One fabric has one listing. */
  lemma FabricIsDetermined(offers: seq<Offer>, a: Fabric, b: Fabric)
    requires IsFabric(offers, a) && IsFabric(offers, b) && a.id == b.id
    ensures a == b
  {
    NodeOrderIsStrict();
    forall n: Node
      ensures n in a.nodes <==> n in b.nodes
    {
      assert n in a.nodes <==> Wins(offers, Offer(a.id, n));
    }
    AscendingIsUnique(a.nodes, b.nodes, NodeBefore);
  }

  lemma FabricIsInBoth(offers: seq<Offer>, a: seq<Fabric>, b: seq<Fabric>, f: Fabric)
    requires Exact(offers, a) && Exact(offers, b) && f in a
    ensures f in b
  {
    var n := f.nodes[0];
    assert n in f.nodes && IsFabric(offers, f);
    var o := Offer(f.id, n);
    assert Wins(offers, o) && HasFabric(b, o.fabric);
    var k :| 0 <= k < |b| && b[k].id == f.id;
    assert b[k] in b;
    FabricIsDetermined(offers, f, b[k]);
  }

  /** Whatever order the maps are walked in, the answer is the same. */
  lemma FabricsAreDetermined(offers: seq<Offer>, a: seq<Fabric>, b: seq<Fabric>)
    requires Exact(offers, a) && Exact(offers, b)
    ensures a == b
  {
    FabricOrderIsStrict();
    forall f: Fabric
      ensures f in a <==> f in b
    {
      if f in a { FabricIsInBoth(offers, a, b, f); }
      if f in b { FabricIsInBoth(offers, b, a, f); }
    }
    AscendingIsUnique(a, b, FabricBefore);
  }

  predicate MeshFirst(nodes: seq<Node>) { forall i, j :: 0 <= i < j < |nodes| && nodes[j].onMesh ==> nodes[i].onMesh }

  lemma {:induction false} LeadersAreCounted(nodes: seq<Node>)
    requires MeshFirst(nodes)
    ensures MeshNodes(nodes) <= |nodes|
    ensures forall i :: 0 <= i < |nodes| ==> (nodes[i].onMesh <==> i < MeshNodes(nodes))
  {
    if nodes != [] {
      var n := |nodes| - 1;
      var front := nodes[..n];
      assert forall i :: 0 <= i < n ==> front[i] == nodes[i];
      LeadersAreCounted(front);
      assert n > 0 && !front[n - 1].onMesh ==> !nodes[n].onMesh;
    }
  }

  /** The mesh count says how many of the leading nodes are on the mesh; none after them is. */
  lemma MeshNodesLead(nodes: seq<Node>)
    requires Ascending(nodes, NodeBefore)
    ensures MeshNodes(nodes) <= |nodes|
    ensures forall i :: 0 <= i < |nodes| ==> (nodes[i].onMesh <==> i < MeshNodes(nodes))
  {
    forall i, j | 0 <= i < j < |nodes| && nodes[j].onMesh
      ensures nodes[i].onMesh
    {
      assert NodeBefore(nodes[i], nodes[j]);
    }
    LeadersAreCounted(nodes);
  }

  /** Within either part the nodes ascend by number, not by text. */
  lemma NodesAscendByNumber(offers: seq<Offer>, f: Fabric, i: nat, j: nat, a: string, b: string)
    requires IsFabric(offers, f) && i < j < |f.nodes| && f.nodes[i].onMesh == f.nodes[j].onMesh
    requires |a| == |b| == 16 && Hex.IsHex(a) && Hex.IsHex(b)
    requires f.nodes[i].nodeId == Short(a) && f.nodes[j].nodeId == Short(b)
    ensures Hex.Number(a) < Hex.Number(b)
  {
    assert NodeBefore(f.nodes[i], f.nodes[j]);
    NodeOrderIsNumeric(a, b);
  }

  /** A node the registry offers is listed as the registry has it, whatever was browsed. */
  lemma RegistryWins(instances: seq<Instance>, devices: seq<Device>, o: Offer)
    requires Wins(DeviceOffers(devices), o)
    ensures Wins(Offers(instances, devices), o)
  {
    var registry, all := DeviceOffers(devices), Offers(instances, devices);
    var i :| 0 <= i < |registry| && registry[i] == o && IsFirst(registry, i);
    assert all[i] == o && IsFirst(all, i);
  }

  /** A node of a fabric is listed once. */
  lemma WinnersAreUnique(offers: seq<Offer>, o: Offer, p: Offer)
    requires Wins(offers, o) && Wins(offers, p) && SameKey(o, p)
    ensures o == p
  {
    var i :| 0 <= i < |offers| && offers[i] == o && IsFirst(offers, i);
    var j :| 0 <= j < |offers| && offers[j] == p && IsFirst(offers, j);
    assert SameKey(offers[i], offers[j]) && SameKey(offers[j], offers[i]);
  }

  /** Every decodable name is listed: some node of its fabric and number wins. */
  lemma {:induction false} EveryOfferIsListed(offers: seq<Offer>, i: nat)
    requires i < |offers|
    ensures exists o: Offer :: SameKey(o, offers[i]) && Wins(offers, o)
    decreases i
  {
    if IsFirst(offers, i) {
      assert SameKey(offers[i], offers[i]) && Wins(offers, offers[i]);
    } else {
      var j :| 0 <= j < i && SameKey(offers[j], offers[i]);
      EveryOfferIsListed(offers, j);
      var o: Offer :| SameKey(o, offers[j]) && Wins(offers, o);
      assert SameKey(o, offers[i]);
    }
  }
}
