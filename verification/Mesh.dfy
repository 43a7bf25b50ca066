/**
 The topology read from the running mesh (`Mesh` in internal/otctl/mesh.go): every link is kept once though both
 ends report it, and every child once, under the parent listed first. The links of a router come from a map.
 */
module Mesh {
  import opened Wrappers

  datatype MeshRouter = MeshRouter(routerId: int, extAddress: string, rloc16: string, links: map<int, int>)

  datatype MeshLink = MeshLink(source: string, target: string, quality: int)

  /** A node is known by its extended address, and without one by its locator. */
  function Id(r: MeshRouter): string { if r.extAddress != "" then r.extAddress else r.rloc16 }

  /** Router IDs to node IDs; a later router wins. */
  function ByRouterId(routers: seq<MeshRouter>): map<int, string> {
    if routers == [] then map[]
    else ByRouterId(routers[..|routers| - 1])[routers[|routers| - 1].routerId := Id(routers[|routers| - 1])]
  }

  /** The link router `r` reports to one of its peers, if both ends are known and different. */
  function Claim(ids: map<int, string>, r: MeshRouter, peer: int): Option<MeshLink>
    requires r.routerId in ids && peer in r.links
  {
    var source := ids[r.routerId];
    if peer in ids && source != "" && source != ids[peer] then Some(MeshLink(source, ids[peer], r.links[peer]))
    else None
  }

  predicate SamePair(a: MeshLink, b: MeshLink) {
    (a.source == b.source && a.target == b.target) || (a.source == b.target && a.target == b.source)
  }

  predicate Linked(links: seq<MeshLink>, claim: MeshLink) { exists k :: 0 <= k < |links| && SamePair(links[k], claim) }

  /** Every link was claimed as it stands by one of its ends. */
  predicate Claimed(ids: map<int, string>, routers: seq<MeshRouter>, link: MeshLink)
    requires forall i :: 0 <= i < |routers| ==> routers[i].routerId in ids
  {
    exists i :: 0 <= i < |routers| && ClaimedBy(ids, routers[i], link)
  }

  predicate ClaimedBy(ids: map<int, string>, r: MeshRouter, link: MeshLink)
    requires r.routerId in ids
  {
    exists peer :: peer in r.links && Claim(ids, r, peer) == Some(link)
  }

  predicate Known(ids: map<int, string>, routers: seq<MeshRouter>) {
    forall i :: 0 <= i < |routers| ==> routers[i].routerId in ids
  }

  /** One link for every pair of different known routers one of which reports the other, and no others. */
  ghost predicate ExactLinks(ids: map<int, string>, routers: seq<MeshRouter>, links: seq<MeshLink>)
    requires Known(ids, routers)
  {
    && (forall k :: 0 <= k < |links| ==> links[k].source != links[k].target && Claimed(ids, routers, links[k]))
    && Unrepeated(links)
    && (forall i, peer :: 0 <= i < |routers| && peer in routers[i].links ==> Covered(ids, routers[i], peer, links))
  }

  predicate Unrepeated(links: seq<MeshLink>) { forall j, k :: 0 <= j < k < |links| ==> !SamePair(links[j], links[k]) }

  predicate Covered(ids: map<int, string>, r: MeshRouter, peer: int, links: seq<MeshLink>)
    requires r.routerId in ids && peer in r.links
  {
    Claim(ids, r, peer).Some? ==> Linked(links, Claim(ids, r, peer).value)
  }

  lemma {:induction false} RoutersAreKnown(routers: seq<MeshRouter>)
    ensures Known(ByRouterId(routers), routers)
  {
    if routers != [] {
      RoutersAreKnown(routers[..|routers| - 1]);
    }
  }

  lemma LinkedStays(links: seq<MeshLink>, more: MeshLink, claim: MeshLink)
    ensures Linked(links + [more], claim) <==> Linked(links, claim) || SamePair(more, claim)
  {
    var grown := links + [more];
    assert grown[|links|] == more;
    if Linked(links, claim) {
      var k :| 0 <= k < |links| && SamePair(links[k], claim);
      assert grown[k] == links[k];
    }
  }

  /** Adjacency deduplicated over both directions. */
  method RouterAdjacency(routers: seq<MeshRouter>) returns (links: seq<MeshLink>)
    ensures Known(ByRouterId(routers), routers) && ExactLinks(ByRouterId(routers), routers, links)
  {
    var ids := ByRouterId(routers);
    RoutersAreKnown(routers);
    links := [];
    var seen: set<(string, string)> := {};
    for i := 0 to |routers|
      invariant SeenIs(seen, links) && Unrepeated(links)
      invariant forall k :: 0 <= k < |links| ==> links[k].source != links[k].target && Claimed(ids, routers, links[k])
      invariant forall j, peer :: 0 <= j < i && peer in routers[j].links ==> Covered(ids, routers[j], peer, links)
    {
      ghost var before := links;
      links, seen := PeersOf(ids, routers[i], links, seen);
      forall j, peer | 0 <= j < i + 1 && peer in routers[j].links
        ensures Covered(ids, routers[j], peer, links)
      {
        if j < i {
          assert Covered(ids, routers[j], peer, before);
        }
      }
      forall k | 0 <= k < |links|
        ensures links[k].source != links[k].target && Claimed(ids, routers, links[k])
      {
        assert k < |before| ==> links[k] == before[k];
      }
    }
  }

  ghost predicate SeenIs(seen: set<(string, string)>, links: seq<MeshLink>) {
    forall a: string, b: string :: (a, b) in seen <==>
      exists k :: 0 <= k < |links| && links[k].source == a && links[k].target == b
  }

  /** The inner loop: one router's peers, in whatever order the map gives them. */
  method PeersOf(ids: map<int, string>, r: MeshRouter, start: seq<MeshLink>, startSeen: set<(string, string)>)
    returns (links: seq<MeshLink>, seen: set<(string, string)>)
    requires r.routerId in ids && SeenIs(startSeen, start) && Unrepeated(start)
    ensures SeenIs(seen, links) && Unrepeated(links) && start <= links
    ensures forall k :: |start| <= k < |links| ==> links[k].source != links[k].target && ClaimedBy(ids, r, links[k])
    ensures forall claim :: Linked(start, claim) ==> Linked(links, claim)
    ensures forall peer :: peer in r.links ==> Covered(ids, r, peer, links)
  {
    links, seen := start, startSeen;
    var source := ids[r.routerId];
    var peers := r.links.Keys;
    while peers != {}
      invariant peers <= r.links.Keys
      invariant SeenIs(seen, links) && Unrepeated(links) && start <= links
      invariant forall k :: |start| <= k < |links| ==> links[k].source != links[k].target && ClaimedBy(ids, r, links[k])
      invariant forall claim :: Linked(start, claim) ==> Linked(links, claim)
      invariant forall peer :: peer in r.links && peer !in peers ==> Covered(ids, r, peer, links)
      decreases peers
    {
      var peer := AnyOf(peers);
      peers := peers - {peer};
      if peer !in ids || source == "" || source == ids[peer] {
        continue;
      }
      var target := ids[peer];
      var claim := MeshLink(source, target, r.links[peer]);
      assert Claim(ids, r, peer) == Some(claim);
      if (source, target) in seen || (target, source) in seen {
        assert Linked(links, claim);
        continue;
      }
      seen := seen + {(source, target)};
      ghost var before := links;
      links := links + [claim];
      OneMoreLink(before, claim, seen);
      forall other | Linked(before, other)
        ensures Linked(links, other)
      {
        LinkedStays(before, claim, other);
      }
      LinkedStays(before, claim, claim);
      assert ClaimedBy(ids, r, claim);
    }
  }

  lemma OneMoreLink(links: seq<MeshLink>, claim: MeshLink, seen: set<(string, string)>)
    requires Unrepeated(links) && SeenIs(seen - {(claim.source, claim.target)}, links)
    requires (claim.source, claim.target) in seen
             && (claim.target, claim.source) !in seen - {(claim.source, claim.target)}
    ensures Unrepeated(links + [claim]) && SeenIs(seen, links + [claim])
  {
    var grown := links + [claim];
    assert grown[|links|] == claim;
    assert forall k :: 0 <= k < |links| ==> grown[k] == links[k];
    forall a: string, b: string
      ensures (a, b) in seen <==> exists k :: 0 <= k < |grown| && grown[k].source == a && grown[k].target == b
    {
      if (a, b) in seen - {(claim.source, claim.target)} {
        var k :| 0 <= k < |links| && links[k].source == a && links[k].target == b;
        assert grown[k].source == a && grown[k].target == b;
      }
    }
  }

  // ---------------------------------------------------------------- children

  /** A child as one router lists it. */
  datatype MeshChild = MeshChild(extAddress: string, rloc16: string)

  /** A child and the parent it was seen under. */
  datatype Sighting = Sighting(parent: string, child: MeshChild)

  predicate Repeats(kept: seq<Sighting>, s: Sighting) {
    s.child.extAddress != "" && exists k :: 0 <= k < |kept| && kept[k].child.extAddress == s.child.extAddress
  }

  /** The first sighting of every child with an address, and every sighting of one without. */
  function Kept(sightings: seq<Sighting>): seq<Sighting> {
    if sightings == [] then []
    else
      var before, s := Kept(sightings[..|sightings| - 1]), sightings[|sightings| - 1];
      if Repeats(before, s) then before else before + [s]
  }

  function SightingsOf(parent: string, children: seq<MeshChild>): seq<Sighting> {
    seq(|children|, i requires 0 <= i < |children| => Sighting(parent, children[i]))
  }

  /** All sightings, router by router. */
  function Sightings(ids: map<int, string>, routers: seq<MeshRouter>,
                     tables: map<string, seq<MeshChild>>): seq<Sighting>
    requires Known(ids, routers)
  {
    if routers == [] then []
    else
      var r := routers[|routers| - 1];
      Sightings(ids, routers[..|routers| - 1], tables)
      + SightingsOf(ids[r.routerId], if r.rloc16 in tables then tables[r.rloc16] else [])
  }

  /** The addresses kept so far. */
  ghost predicate SeenAddresses(seen: set<string>, kept: seq<Sighting>) {
    forall ext: string :: ext in seen <==> ext != "" && exists k :: 0 <= k < |kept| && kept[k].child.extAddress == ext
  }

  lemma KeepOne(seen: set<string>, kept: seq<Sighting>, s: Sighting)
    requires SeenAddresses(seen, kept)
    ensures s.child.extAddress == "" ==> SeenAddresses(seen, kept + [s])
    ensures s.child.extAddress != "" ==> SeenAddresses(seen + {s.child.extAddress}, kept + [s])
    ensures s.child.extAddress in seen <==> Repeats(kept, s)
  {
    var grown := kept + [s];
    assert grown[|kept|] == s && forall k :: 0 <= k < |kept| ==> grown[k] == kept[k];
  }

  /** Keeps the first sighting of each child. */
  method ChildrenOf(routers: seq<MeshRouter>, tables: map<string, seq<MeshChild>>) returns (kept: seq<Sighting>)
    ensures Known(ByRouterId(routers), routers)
    ensures kept == Kept(Sightings(ByRouterId(routers), routers, tables))
  {
    var ids := ByRouterId(routers);
    RoutersAreKnown(routers);
    kept := [];
    var seen: set<string> := {};
    for i := 0 to |routers|
      invariant kept == Kept(Sightings(ids, routers[..i], tables)) && SeenAddresses(seen, kept)
    {
      assert routers[..i + 1][..i] == routers[..i];
      var children := if routers[i].rloc16 in tables then tables[routers[i].rloc16] else [];
      kept, seen := KeepFirst(ids[routers[i].routerId], children, kept, seen, Sightings(ids, routers[..i], tables));
    }
    assert routers[..|routers|] == routers;
  }

  /** The inner loop: one router's table. */
  method KeepFirst(parent: string, children: seq<MeshChild>, start: seq<Sighting>, startSeen: set<string>,
                   ghost earlier: seq<Sighting>)
    returns (kept: seq<Sighting>, seen: set<string>)
    requires start == Kept(earlier) && SeenAddresses(startSeen, start)
    ensures kept == Kept(earlier + SightingsOf(parent, children)) && SeenAddresses(seen, kept)
  {
    ghost var mine := SightingsOf(parent, children);
    kept, seen := start, startSeen;
    assert earlier + mine[..0] == earlier;
    for j := 0 to |children|
      invariant kept == Kept(earlier + mine[..j]) && SeenAddresses(seen, kept)
    {
      var s := Sighting(parent, children[j]);
      assert (earlier + mine[..j + 1])[..|earlier| + j] == earlier + mine[..j];
      KeepOne(seen, kept, s);
      if s.child.extAddress != "" {
        if s.child.extAddress in seen {
          continue;
        }
        seen := seen + {s.child.extAddress};
      }
      kept := kept + [s];
    }
    assert mine[..|children|] == mine;
  }

  predicate NoAddressTwice(kept: seq<Sighting>) {
    forall j, k :: 0 <= j < k < |kept| ==> !SameAddress(kept[j], kept[k])
  }

  predicate SameAddress(a: Sighting, b: Sighting) {
    a.child.extAddress != "" && a.child.extAddress == b.child.extAddress
  }

  /** No address is kept twice. */
  lemma {:induction false} KeptOnce(sightings: seq<Sighting>)
    ensures NoAddressTwice(Kept(sightings))
  {
    if sightings != [] {
      KeptOnce(sightings[..|sightings| - 1]);
    }
  }

  predicate SeenFirst(sightings: seq<Sighting>, s: Sighting) {
    exists i :: 0 <= i < |sightings| && sightings[i] == s && FirstSighting(sightings, i)
  }

  lemma FirstInPrefix(sightings: seq<Sighting>, i: nat)
    requires i < |sightings| - 1
    ensures FirstSighting(sightings, i) <==> FirstSighting(sightings[..|sightings| - 1], i)
  {
    var front := sightings[..|sightings| - 1];
    assert forall j :: 0 <= j <= i ==> sightings[j] == front[j];
  }

  lemma SeenFirstGrows(sightings: seq<Sighting>, s: Sighting)
    requires sightings != []
    ensures var n := |sightings| - 1;
            SeenFirst(sightings, s) <==>
            SeenFirst(sightings[..n], s) || (sightings[n] == s && FirstSighting(sightings, n))
  {
    var n, front := |sightings| - 1, sightings[..|sightings| - 1];
    if SeenFirst(front, s) {
      var i :| 0 <= i < n && front[i] == s && FirstSighting(front, i);
      FirstInPrefix(sightings, i);
      assert sightings[i] == s;
    }
    if i :| 0 <= i < n && sightings[i] == s && FirstSighting(sightings, i) {
      FirstInPrefix(sightings, i);
      assert front[i] == s;
    }
  }

  /** What is kept is exactly the first sightings, with the parent each was first seen under. */
  lemma {:induction false} KeptAreFirst(sightings: seq<Sighting>, s: Sighting)
    ensures s in Kept(sightings) <==> SeenFirst(sightings, s)
  {
    if sightings != [] {
      KeptAreFirst(sightings[..|sightings| - 1], s);
      LastIsFirst(sightings);
      SeenFirstGrows(sightings, s);
    }
  }

  lemma LastIsFirst(sightings: seq<Sighting>)
    requires sightings != []
    ensures var n := |sightings| - 1;
            Repeats(Kept(sightings[..n]), sightings[n]) <==> !FirstSighting(sightings, n)
  {
    var n := |sightings| - 1;
    RepeatsIffSeen(sightings[..n], sightings[n]);
    assert forall i :: 0 <= i < n ==> sightings[i] == sightings[..n][i];
  }

  /** No earlier sighting has the same address. */
  predicate FirstSighting(sightings: seq<Sighting>, i: nat)
    requires i < |sightings|
  {
    sightings[i].child.extAddress == ""
    || forall j :: 0 <= j < i ==> sightings[j].child.extAddress != sightings[i].child.extAddress
  }

  /** An address is among the kept ones exactly when it was sighted at all. */
  lemma {:induction false} RepeatsIffSeen(sightings: seq<Sighting>, s: Sighting)
    ensures Repeats(Kept(sightings), s) <==>
            && s.child.extAddress != ""
            && exists i :: 0 <= i < |sightings| && sightings[i].child.extAddress == s.child.extAddress
  {
    if sightings != [] {
      var front, last := sightings[..|sightings| - 1], sightings[|sightings| - 1];
      RepeatsIffSeen(front, s);
      assert sightings == front + [last];
      assert forall i :: 0 <= i < |front| ==> sightings[i] == front[i];
      if i :| 0 <= i < |sightings| && sightings[i].child.extAddress == s.child.extAddress {
        assert i < |front| ==> front[i].child.extAddress == s.child.extAddress;
      }
      if last.child.extAddress == s.child.extAddress {
        RepeatsIffSeen(front, last);
        if !Repeats(Kept(front), last) {
          assert Kept(sightings)[|Kept(front)|] == last;
        }
      }
      if Repeats(Kept(front), s) && !Repeats(Kept(front), last) {
        var k :| 0 <= k < |Kept(front)| && Kept(front)[k].child.extAddress == s.child.extAddress;
        assert Kept(sightings)[k] == Kept(front)[k];
      }
    }
  }

  // ---------------------------------------------------------------- links told from the routers

  /** Router `k` is the last one with the ID. */
  predicate IsLastRouter(routers: seq<MeshRouter>, routerId: int, k: nat) {
    && k < |routers| && routers[k].routerId == routerId
    && forall j :: k < j < |routers| ==> routers[j].routerId != routerId
  }

  predicate IsNodeId(r: MeshRouter, id: string) { if r.extAddress == "" then id == r.rloc16 else id == r.extAddress }

  lemma LastOfMore(front: seq<MeshRouter>, r: MeshRouter, routerId: int, k: nat)
    ensures r.routerId == routerId ==> IsLastRouter(front + [r], routerId, |front|)
    ensures r.routerId != routerId && IsLastRouter(front, routerId, k) ==>
              IsLastRouter(front + [r], routerId, k) && (front + [r])[k] == front[k]
  {
  }

  /** A router ID stands for the last router that has it. */
  lemma {:induction false} IdIsOfLast(routers: seq<MeshRouter>, routerId: int)
    ensures routerId in ByRouterId(routers) ==>
              exists k: nat :: IsLastRouter(routers, routerId, k) && IsNodeId(routers[k], ByRouterId(routers)[routerId])
    ensures routerId !in ByRouterId(routers) ==> forall k :: 0 <= k < |routers| ==> routers[k].routerId != routerId
  {
    if routers != [] {
      var front, r := routers[..|routers| - 1], routers[|routers| - 1];
      IdIsOfLast(front, routerId);
      assert routers == front + [r];
      if r.routerId == routerId {
        LastOfMore(front, r, routerId, 0);
      } else if routerId in ByRouterId(front) {
        var k: nat :| IsLastRouter(front, routerId, k) && IsNodeId(front[k], ByRouterId(front)[routerId]);
        LastOfMore(front, r, routerId, k);
      }
    }
  }

  /** Router `i` reports the link to `peer`: the ends are the last routers with the two IDs, named and different. */
  predicate IsReported(routers: seq<MeshRouter>, link: MeshLink, i: nat, peer: int, s: nat, t: nat) {
    && i < |routers| && peer in routers[i].links && link.quality == routers[i].links[peer]
    && IsLastRouter(routers, routers[i].routerId, s) && IsNodeId(routers[s], link.source)
    && IsLastRouter(routers, peer, t) && IsNodeId(routers[t], link.target)
    && link.source != "" && link.source != link.target
  }

  /** Every link is reported by one of its ends, from that end and with its quality. */
  lemma LinkIsReported(routers: seq<MeshRouter>, links: seq<MeshLink>, k: nat)
    requires Known(ByRouterId(routers), routers) && ExactLinks(ByRouterId(routers), routers, links) && k < |links|
    ensures exists i: nat, peer, s: nat, t: nat :: IsReported(routers, links[k], i, peer, s, t)
  {
    var ids := ByRouterId(routers);
    assert Claimed(ids, routers, links[k]);
    var i :| 0 <= i < |routers| && ClaimedBy(ids, routers[i], links[k]);
    var peer :| peer in routers[i].links && Claim(ids, routers[i], peer) == Some(links[k]);
    IdIsOfLast(routers, routers[i].routerId);
    IdIsOfLast(routers, peer);
    var s: nat :| IsLastRouter(routers, routers[i].routerId, s) && IsNodeId(routers[s], ids[routers[i].routerId]);
    var t: nat :| IsLastRouter(routers, peer, t) && IsNodeId(routers[t], ids[peer]);
    assert IsReported(routers, links[k], i, peer, s, t);
  }

  /** And whatever is reported is linked, from the one end or the other. */
  lemma ReportedIsLinked(routers: seq<MeshRouter>, links: seq<MeshLink>, link: MeshLink, i: nat, peer: int, s: nat,
                         t: nat)
    requires Known(ByRouterId(routers), routers) && ExactLinks(ByRouterId(routers), routers, links)
    requires IsReported(routers, link, i, peer, s, t)
    ensures exists k :: 0 <= k < |links| && SamePair(links[k], link)
  {
    var ids := ByRouterId(routers);
    IdIsOfLast(routers, routers[i].routerId);
    IdIsOfLast(routers, peer);
    assert forall j: nat :: IsLastRouter(routers, routers[i].routerId, j) ==> j == s;
    assert forall j: nat :: IsLastRouter(routers, peer, j) ==> j == t;
    assert Claim(ids, routers[i], peer) == Some(link);
    assert Covered(ids, routers[i], peer, links);
  }
}
