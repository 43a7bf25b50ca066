/**
 The whole topology built from OTBR's diagnostics (`decodeTopology` in
 internal/otbr/client.go): routers and their links from RouterLinks, and the
 children, which two tables describe and which are joined by child ID.
 */
module Topology {
  import opened Wrappers
  import opened Text
  import opened RouterLinks
  import opened Sorting
  import Rloc

  datatype Role = Router | Child

  datatype Node = Node(id: string, role: Role, rloc16: string, routerId: Option<int>, extAddress: string,
                       parentId: string, linkQuality: Option<int>, timeout: Option<int>, mode: Mode)

  const NO_MODE := Mode(None, None, None)

  function RouterNode(r: Record): Node {
    Node(Id(r), Router, r.rloc16, r.routerId, r.extAddress, "", None, None, NO_MODE)
  }

  function RouterNodes(records: seq<Record>): (nodes: seq<Node>)
    ensures |nodes| == |records| && forall i :: 0 <= i < |records| ==> nodes[i] == RouterNode(records[i])
  {
    seq(|records|, i requires 0 <= i < |records| => RouterNode(records[i]))
  }

  // ---------------------------------------------------------------- one router's children

  /** A child before either table has said anything of it. */
  function BareChild(r: Record, childId: int): Node {
    Node(Id(r) + "/child/" + ChildText(childId), Child, Rloc.DerivedRloc(Rloc.ParseRloc16(r.rloc16), childId),
         r.routerId, "", Id(r), None, None, NO_MODE)
  }

  /** `%d` of a child ID. */
  function ChildText(n: int): string { if n < 0 then "-" + Rloc.Itoa(-n) else Rloc.Itoa(n) }

  /** The child table brings link quality, timeout and mode, whatever was there. */
  function FromTable(n: Node, e: TableEntry): Node {
    n.(linkQuality := e.linkQuality, timeout := e.timeout, mode := e.mode)
  }

  /** The children TLV brings the identity, and overrides the rest only where it has a value. */
  function FromDetail(n: Node, d: Detail): Node {
    n.(id := if d.extAddress != "" then d.extAddress else n.id,
       extAddress := if d.extAddress != "" then d.extAddress else n.extAddress,
       rloc16 := if d.rloc16 != "" then d.rloc16 else n.rloc16,
       timeout := First(d.timeout, n.timeout),
       mode := Mode(First(d.mode.rxOnWhenIdle, n.mode.rxOnWhenIdle), First(d.mode.fullDevice, n.mode.fullDevice),
                    First(d.mode.fullData, n.mode.fullData)))
  }

  /** A child as the first `t` table entries and then the first `d` details describe it, taken alone. */
  function ChildNode(r: Record, childId: int, t: nat, d: nat): Node
    requires t <= |r.childTable| && d <= |r.children|
  {
    if d > 0 then
      var before := ChildNode(r, childId, t, d - 1);
      if r.children[d - 1].childId == childId then FromDetail(before, r.children[d - 1]) else before
    else if t > 0 then
      var before := ChildNode(r, childId, t - 1, 0);
      if r.childTable[t - 1].childId == childId then FromTable(before, r.childTable[t - 1]) else before
    else BareChild(r, childId)
  }

  /** The child IDs in the order they first appear in the table and then the details. */
  function ChildIds(r: Record, t: nat, d: nat): seq<int>
    requires t <= |r.childTable| && d <= |r.children|
  {
    if d > 0 then AddOnce(ChildIds(r, t, d - 1), r.children[d - 1].childId)
    else if t > 0 then AddOnce(ChildIds(r, t - 1, 0), r.childTable[t - 1].childId)
    else []
  }

  function AddOnce(ids: seq<int>, id: int): seq<int> { if id in ids then ids else ids + [id] }

  function ChildNodes(r: Record): (nodes: seq<Node>)
    ensures |nodes| == |ChildIds(r, |r.childTable|, |r.children|)|
  {
    var ids := ChildIds(r, |r.childTable|, |r.children|);
    seq(|ids|, k requires 0 <= k < |ids| => ChildNode(r, ids[k], |r.childTable|, |r.children|))
  }

  function FirstDetail(ds: seq<Detail>, childId: int): Option<Detail> {
    if ds == [] then None else if ds[0].childId == childId then Some(ds[0]) else FirstDetail(ds[1..], childId)
  }

  /** The link of a child: from its parent, with the table's quality and the first detail's signal. */
  function LinkOf(r: Record, childId: int, n: Node): Link {
    var d := FirstDetail(r.children, childId);
    Link(Id(r), n.id, ChildLink, n.linkQuality,
         if d.None? then NO_METRICS
         else NO_METRICS.(margin := d.value.margin, averageRssi := d.value.averageRssi, lastRssi := d.value.lastRssi,
                         frameErrors := d.value.frameErrors))
  }

  function LinksOfChildren(r: Record): (links: seq<Link>)
    ensures |links| == |ChildNodes(r)|
  {
    var ids := ChildIds(r, |r.childTable|, |r.children|);
    var nodes := ChildNodes(r);
    seq(|ids|, k requires 0 <= k < |ids| => LinkOf(r, ids[k], nodes[k]))
  }

  /** A merged child and the turn at which its ID first appeared. */
  datatype Entry = Entry(node: Node, order: nat)

  /** The map of merged children, as the tables read so far make it. */
  ghost predicate MergedSoFar(r: Record, merged: map<int, Entry>, t: nat, d: nat)
    requires t <= |r.childTable| && d <= |r.children|
  {
    var ids := ChildIds(r, t, d);
    && (forall id :: id in merged <==> id in ids)
    && (forall k :: 0 <= k < |ids| ==> merged[ids[k]] == Entry(ChildNode(r, ids[k], t, d), k))
  }

  lemma {:induction false} IdsAreDistinct(r: Record, t: nat, d: nat)
    requires t <= |r.childTable| && d <= |r.children|
    ensures forall i, j :: 0 <= i < j < |ChildIds(r, t, d)| ==> ChildIds(r, t, d)[i] != ChildIds(r, t, d)[j]
    decreases t + d
  {
    if d > 0 {
      IdsAreDistinct(r, t, d - 1);
    } else if t > 0 {
      IdsAreDistinct(r, t - 1, 0);
    }
  }

  /** An ID no entry has named so far is still bare. */
  lemma {:induction false} UnnamedIsBare(r: Record, childId: int, t: nat, d: nat)
    requires t <= |r.childTable| && d <= |r.children| && childId !in ChildIds(r, t, d)
    ensures ChildNode(r, childId, t, d) == BareChild(r, childId)
    decreases t + d
  {
    if d > 0 {
      var before, id := ChildIds(r, t, d - 1), r.children[d - 1].childId;
      assert id !in before ==> (before + [id])[|before|] == id;
      UnnamedIsBare(r, childId, t, d - 1);
    } else if t > 0 {
      var before, id := ChildIds(r, t - 1, 0), r.childTable[t - 1].childId;
      assert id !in before ==> (before + [id])[|before|] == id;
      UnnamedIsBare(r, childId, t - 1, 0);
    }
  }

  /** The entry of a child, made on first sight. */
  function EntryFor(r: Record, merged: map<int, Entry>, childId: int): Entry {
    if childId in merged then merged[childId] else Entry(BareChild(r, childId), |merged|)
  }

  lemma MergedSize(r: Record, merged: map<int, Entry>, t: nat, d: nat)
    requires t <= |r.childTable| && d <= |r.children| && MergedSoFar(r, merged, t, d)
    ensures |merged| == |ChildIds(r, t, d)|
  {
    var ids := ChildIds(r, t, d);
    IdsAreDistinct(r, t, d);
    DistinctSize(ids);
    assert forall id :: id in merged.Keys <==> id in ids;
    assert merged.Keys == set id | id in ids;
    assert |merged| == |merged.Keys|;
  }

  lemma {:induction false} DistinctSize(ids: seq<int>)
    requires forall i, j :: 0 <= i < j < |ids| ==> ids[i] != ids[j]
    ensures |set id | id in ids| == |ids|
  {
    if ids != [] {
      var front, last := ids[..|ids| - 1], ids[|ids| - 1];
      DistinctSize(front);
      assert (set id | id in ids) == (set id | id in front) + {last};
    }
  }

  lemma TableMerges(r: Record, merged: map<int, Entry>, t: nat)
    requires t < |r.childTable| && MergedSoFar(r, merged, t, 0)
    ensures var e := r.childTable[t];
            var entry := EntryFor(r, merged, e.childId);
            MergedSoFar(r, merged[e.childId := entry.(node := FromTable(entry.node, e))], t + 1, 0)
  {
    var e := r.childTable[t];
    MergedSize(r, merged, t, 0);
    IdsAreDistinct(r, t, 0);
    if e.childId !in merged {
      UnnamedIsBare(r, e.childId, t, 0);
    }
  }

  lemma DetailMerges(r: Record, merged: map<int, Entry>, d: nat)
    requires d < |r.children| && MergedSoFar(r, merged, |r.childTable|, d)
    ensures var e := r.children[d];
            var entry := EntryFor(r, merged, e.childId);
            MergedSoFar(r, merged[e.childId := entry.(node := FromDetail(entry.node, e))], |r.childTable|, d + 1)
  {
    var e := r.children[d];
    MergedSize(r, merged, |r.childTable|, d);
    IdsAreDistinct(r, |r.childTable|, d);
    if e.childId !in merged {
      UnnamedIsBare(r, e.childId, |r.childTable|, d);
    }
  }

  /** Joins the two tables in a map, in place. */
  method MergeChildren(r: Record) returns (merged: map<int, Entry>)
    ensures MergedSoFar(r, merged, |r.childTable|, |r.children|)
  {
    merged := map[];
    for t := 0 to |r.childTable|
      invariant MergedSoFar(r, merged, t, 0)
    {
      TableMerges(r, merged, t);
      var e := r.childTable[t];
      var entry := EntryFor(r, merged, e.childId);
      merged := merged[e.childId := entry.(node := FromTable(entry.node, e))];
    }
    for d := 0 to |r.children|
      invariant MergedSoFar(r, merged, |r.childTable|, d)
    {
      DetailMerges(r, merged, d);
      var e := r.children[d];
      var entry := EntryFor(r, merged, e.childId);
      merged := merged[e.childId := entry.(node := FromDetail(entry.node, e))];
    }
  }

  /** The child IDs sorted by the turn they appeared; the turns are 0, 1, 2 and so on, so the order is the only one. */
  method SortByOrder(r: Record, merged: map<int, Entry>) returns (ids: seq<int>)
    requires MergedSoFar(r, merged, |r.childTable|, |r.children|)
    ensures ids == ChildIds(r, |r.childTable|, |r.children|)
  {
    ghost var want := ChildIds(r, |r.childTable|, |r.children|);
    IdsAreDistinct(r, |r.childTable|, |r.children|);
    MergedSize(r, merged, |r.childTable|, |r.children|);
    ids := [];
    for k := 0 to |merged|
      invariant ids == want[..k]
    {
      assert merged[want[k]].order == k;
      var id :| id in merged && merged[id].order == k;
      assert id == want[k];
      ids := ids + [id];
    }
  }

  method AddChildren(r: Record, b: Builder) returns (nodes: seq<Node>)
    requires b.Valid()
    modifies b`links
    ensures b.Valid() && nodes == ChildNodes(r)
    ensures ChildLinks(b.links) == ChildLinks(old(b.links)) + LinksOfChildren(r)
  {
    var merged := MergeChildren(r);
    var ids := SortByOrder(r, merged);
    forall k | 0 <= k < |ids|
      ensures ids[k] in merged && merged[ids[k]].node == ChildNodes(r)[k]
              && LinksOfChildren(r)[k] == LinkOf(r, ids[k], ChildNodes(r)[k])
    {
      ChildAt(r, merged, k);
    }
    nodes := AddInOrder(r, b, merged, ids, ChildNodes(r), LinksOfChildren(r));
  }

  method AddInOrder(r: Record, b: Builder, merged: map<int, Entry>, ids: seq<int>, ghost all: seq<Node>,
                    ghost links: seq<Link>)
    returns (nodes: seq<Node>)
    requires b.Valid() && |all| == |links| == |ids|
    requires forall k :: 0 <= k < |ids| ==>
               ids[k] in merged && merged[ids[k]].node == all[k] && links[k] == LinkOf(r, ids[k], all[k])
    modifies b`links
    ensures b.Valid() && nodes == all && ChildLinks(b.links) == ChildLinks(old(b.links)) + links
  {
    nodes := [];
    ghost var start := ChildLinks(b.links);
    for k := 0 to |ids|
      invariant b.Valid()
      invariant nodes == all[..k]
      invariant ChildLinks(b.links) == start + links[..k]
    {
      var child := merged[ids[k]].node;
      var link := ChildLinkFor(r, ids[k], child);
      nodes := nodes + [child];
      b.AddChildLink(link);
    }
  }

  lemma ChildAt(r: Record, merged: map<int, Entry>, k: nat)
    requires MergedSoFar(r, merged, |r.childTable|, |r.children|) && k < |ChildNodes(r)|
    ensures var childId := ChildIds(r, |r.childTable|, |r.children|)[k];
            && childId in merged && merged[childId].node == ChildNodes(r)[k]
            && LinksOfChildren(r)[k] == LinkOf(r, childId, ChildNodes(r)[k])
  {
    var childId := ChildIds(r, |r.childTable|, |r.children|)[k];
    assert childId in ChildIds(r, |r.childTable|, |r.children|);
  }

  method ChildLinkFor(r: Record, childId: int, child: Node) returns (link: Link)
    ensures link == LinkOf(r, childId, child)
  {
    link := Link(Id(r), child.id, ChildLink, child.linkQuality, NO_METRICS);
    var detail := FindDetail(r.children, childId);
    if detail.Some? {
      link := link.(metrics := NO_METRICS.(margin := detail.value.margin, averageRssi := detail.value.averageRssi,
                                          lastRssi := detail.value.lastRssi, frameErrors := detail.value.frameErrors));
    }
  }

  method FindDetail(ds: seq<Detail>, childId: int) returns (found: Option<Detail>)
    ensures found == FirstDetail(ds, childId)
  {
    assert ds[0..] == ds;
    for i := 0 to |ds|
      invariant FirstDetail(ds, childId) == FirstDetail(ds[i..], childId)
    {
      assert ds[i..][1..] == ds[i + 1..];
      if ds[i].childId == childId {
        return Some(ds[i]);
      }
    }
    return None;
  }

  // ---------------------------------------------------------------- what a merged child is

  /** Its link quality is the one of its last table entry, and it has none without an entry. */
  lemma {:induction false} QualityFromTable(r: Record, childId: int, t: nat, d: nat, i: nat)
    requires t <= |r.childTable| && d <= |r.children|
    requires i < t ==> r.childTable[i].childId == childId
    requires forall j :: 0 <= j < t && (i < j || i >= t) ==> r.childTable[j].childId != childId
    ensures ChildNode(r, childId, t, d).linkQuality == if i < t then r.childTable[i].linkQuality else None
    decreases t + d
  {
    if d > 0 {
      QualityFromTable(r, childId, t, d - 1, i);
    } else if t > 0 && i != t - 1 {
      QualityFromTable(r, childId, t - 1, 0, i);
    }
  }

  /** Its identity is the extended address of its last detail that has one, and the derived name without any. */
  lemma {:induction false} IdentityFromDetails(r: Record, childId: int, t: nat, d: nat, i: nat)
    requires t <= |r.childTable| && d <= |r.children|
    requires i < d ==> r.children[i].childId == childId && r.children[i].extAddress != ""
    requires forall j :: 0 <= j < d && (i < j || i >= d) ==>
               r.children[j].childId != childId || r.children[j].extAddress == ""
    ensures var n := ChildNode(r, childId, t, d);
            && n.id == (if i < d then r.children[i].extAddress else BareChild(r, childId).id)
            && n.extAddress == (if i < d then r.children[i].extAddress else "")
    decreases t + d
  {
    if d > 0 {
      if i != d - 1 {
        IdentityFromDetails(r, childId, t, d - 1, i);
      }
    } else if t > 0 {
      IdentityFromDetails(r, childId, t - 1, 0, i);
    }
  }

  /** Every ID either table names has exactly one child, and no other ID has one. */
  lemma {:induction false} IdsAreTheNamedOnes(r: Record, t: nat, d: nat, childId: int)
    requires t <= |r.childTable| && d <= |r.children|
    ensures childId in ChildIds(r, t, d) <==>
            (exists i :: 0 <= i < t && r.childTable[i].childId == childId)
              || (exists i :: 0 <= i < d && r.children[i].childId == childId)
    decreases t + d
  {
    if d > 0 {
      IdsAreTheNamedOnes(r, t, d - 1, childId);
    } else if t > 0 {
      IdsAreTheNamedOnes(r, t - 1, 0, childId);
    }
  }

  // ---------------------------------------------------------------- the order of the children

  /** The IDs the two tables name, one after another, repetitions included. */
  function NamedIds(r: Record, t: nat, d: nat): (ids: seq<int>)
    requires t <= |r.childTable| && d <= |r.children|
    ensures |ids| == t + d
    ensures forall i :: 0 <= i < t ==> ids[i] == r.childTable[i].childId
    ensures forall i :: 0 <= i < d ==> ids[t + i] == r.children[i].childId
  {
    seq(t, i requires 0 <= i < t => r.childTable[i].childId) + seq(d, i requires 0 <= i < d => r.children[i].childId)
  }

  function Once(ids: seq<int>): seq<int> {
    if ids == [] then [] else AddOnce(Once(ids[..|ids| - 1]), ids[|ids| - 1])
  }

  /** The detail named last, or else the table entry. */
  lemma NamedIdsGrow(r: Record, t: nat, d: nat)
    requires t <= |r.childTable| && d <= |r.children|
    ensures d > 0 ==> NamedIds(r, t, d) == NamedIds(r, t, d - 1) + [r.children[d - 1].childId]
    ensures t > 0 ==> NamedIds(r, t, 0) == NamedIds(r, t - 1, 0) + [r.childTable[t - 1].childId]
  {
  }

  lemma OnceGrows(ids: seq<int>, id: int)
    ensures Once(ids + [id]) == AddOnce(Once(ids), id)
  {
    assert (ids + [id])[..|ids|] == ids;
  }

  lemma {:induction false} ChildIdsAreOnce(r: Record, t: nat, d: nat)
    requires t <= |r.childTable| && d <= |r.children|
    ensures ChildIds(r, t, d) == Once(NamedIds(r, t, d))
    decreases t + d
  {
    NamedIdsGrow(r, t, d);
    if d > 0 {
      ChildIdsAreOnce(r, t, d - 1);
      OnceGrows(NamedIds(r, t, d - 1), r.children[d - 1].childId);
    } else if t > 0 {
      ChildIdsAreOnce(r, t - 1, 0);
      OnceGrows(NamedIds(r, t - 1, 0), r.childTable[t - 1].childId);
    }
  }

  predicate IsFirstAt(ids: seq<int>, id: int, i: nat) {
    i < |ids| && ids[i] == id && forall j :: 0 <= j < i ==> ids[j] != id
  }

  lemma {:induction false} OnceHasAll(ids: seq<int>)
    ensures forall id :: id in Once(ids) <==> id in ids
  {
    if ids != [] {
      OnceHasAll(ids[..|ids| - 1]);
      assert ids == ids[..|ids| - 1] + [ids[|ids| - 1]];
    }
  }

  lemma {:induction false} OnceKeepsOrder(ids: seq<int>, j: nat, k: nat, a: nat, b: nat)
    requires j < k < |Once(ids)| && IsFirstAt(ids, Once(ids)[j], a) && IsFirstAt(ids, Once(ids)[k], b)
    ensures a < b
  {
    var n := |ids| - 1;
    var front := ids[..n];
    OnceHasAll(front);
    assert forall i :: 0 <= i < n ==> front[i] == ids[i];
    assert Once(ids)[j] == Once(front)[j] && Once(front)[j] in front;
    var i :| 0 <= i < n && front[i] == Once(ids)[j];
    if k < |Once(front)| {
      assert Once(front)[k] in front;
      var m :| 0 <= m < n && front[m] == Once(ids)[k];
      OnceKeepsOrder(front, j, k, a, b);
    }
  }

  /** The children stand in the order in which their IDs are first named, the table before the details. */
  lemma ChildrenInFirstOrder(r: Record, j: nat, k: nat, a: nat, b: nat)
    requires var ids, named := ChildIds(r, |r.childTable|, |r.children|), NamedIds(r, |r.childTable|, |r.children|);
             j < k < |ids| && IsFirstAt(named, ids[j], a) && IsFirstAt(named, ids[k], b)
    ensures a < b
  {
    ChildIdsAreOnce(r, |r.childTable|, |r.children|);
    OnceKeepsOrder(NamedIds(r, |r.childTable|, |r.children|), j, k, a, b);
  }

  // ---------------------------------------------------------------- the other fields of a child

  datatype Field = Timeout | RxOnWhenIdle | FullDevice | FullData

  /** What an optional field holds: nothing, a number, or a flag. */
  datatype Content = Nothing | Number(number: int) | Flag(flag: bool)

  function OfNumber(n: Option<int>): Content { if n.None? then Nothing else Number(n.value) }

  function OfFlag(b: Option<bool>): Content { if b.None? then Nothing else Flag(b.value) }

  function FieldOf(timeout: Option<int>, mode: Mode, f: Field): Content {
    match f
    case Timeout => OfNumber(timeout)
    case RxOnWhenIdle => OfFlag(mode.rxOnWhenIdle)
    case FullDevice => OfFlag(mode.fullDevice)
    case FullData => OfFlag(mode.fullData)
  }

  predicate HasField(d: Detail, childId: int, f: Field) {
    d.childId == childId && FieldOf(d.timeout, d.mode, f) != Nothing
  }

  /** An optional field is that of the child's last detail having one, and without any what the table left. */
  lemma {:induction false} FieldFromDetails(r: Record, childId: int, t: nat, d: nat, f: Field, i: nat)
    requires t <= |r.childTable| && d <= |r.children|
    requires i < d ==> HasField(r.children[i], childId, f)
    requires forall j :: 0 <= j < d && (i < j || i >= d) ==> !HasField(r.children[j], childId, f)
    ensures var n, m := ChildNode(r, childId, t, d), ChildNode(r, childId, t, 0);
            FieldOf(n.timeout, n.mode, f) ==
            if i < d then FieldOf(r.children[i].timeout, r.children[i].mode, f) else FieldOf(m.timeout, m.mode, f)
    decreases d
  {
    if d > 0 && i != d - 1 {
      FieldFromDetails(r, childId, t, d - 1, f, i);
    }
  }

  /** The table leaves the field of the child's last entry, missing or not. */
  lemma {:induction false} FieldFromTable(r: Record, childId: int, t: nat, f: Field, i: nat)
    requires t <= |r.childTable| && (i < t ==> r.childTable[i].childId == childId)
    requires forall j :: 0 <= j < t && (i < j || i >= t) ==> r.childTable[j].childId != childId
    ensures var n := ChildNode(r, childId, t, 0);
            FieldOf(n.timeout, n.mode, f) ==
              if i < t then FieldOf(r.childTable[i].timeout, r.childTable[i].mode, f) else Nothing
  {
    if t > 0 && i != t - 1 {
      FieldFromTable(r, childId, t - 1, f, i);
    }
  }

  /** The locator is that of the child's last detail having one, and the derived one without any. */
  lemma {:induction false} LocatorFromDetails(r: Record, childId: int, t: nat, d: nat, i: nat)
    requires t <= |r.childTable| && d <= |r.children|
    requires i < d ==> r.children[i].childId == childId && r.children[i].rloc16 != ""
    requires forall j :: 0 <= j < d && (i < j || i >= d) ==>
               r.children[j].childId != childId || r.children[j].rloc16 == ""
    ensures ChildNode(r, childId, t, d).rloc16 == if i < d then r.children[i].rloc16 else BareChild(r, childId).rloc16
    decreases t + d
  {
    if d > 0 {
      if i != d - 1 {
        LocatorFromDetails(r, childId, t, d - 1, i);
      }
    } else if t > 0 {
      LocatorFromDetails(r, childId, t - 1, 0, i);
    }
  }

  // ---------------------------------------------------------------- links and nodes

  /** Child links and child nodes pair up in order: each link runs from the child's parent to the child. */
  lemma {:induction false} LinksPairWithNodes(records: seq<Record>)
    ensures var nodes, links := AllChildNodes(records), AllLinksOfChildren(records);
            && |nodes| == |links|
            && forall k :: 0 <= k < |nodes| ==>
                 && links[k].kind == ChildLink && links[k].source == nodes[k].parentId && links[k].target == nodes[k].id
                 && links[k].linkQuality == nodes[k].linkQuality
                 && Listed(records, links[k].source)
  {
    if records != [] {
      var front, r := records[..|records| - 1], records[|records| - 1];
      assert records == front + [r];
      LinksPairWithNodes(front);
      var ids := ChildIds(r, |r.childTable|, |r.children|);
      forall k | 0 <= k < |ids|
        ensures ChildNodes(r)[k].parentId == Id(r)
      {
        ParentIsKept(r, ids[k], |r.childTable|, |r.children|);
      }
      var links := AllLinksOfChildren(records);
      forall k | 0 <= k < |links|
        ensures Listed(records, links[k].source)
      {
        ListedGrows(front, r, links[k].source);
      }
    }
  }

  lemma {:induction false} ParentIsKept(r: Record, childId: int, t: nat, d: nat)
    requires t <= |r.childTable| && d <= |r.children|
    ensures ChildNode(r, childId, t, d).parentId == Id(r)
    decreases t + d
  {
    if d > 0 {
      ParentIsKept(r, childId, t, d - 1);
    } else if t > 0 {
      ParentIsKept(r, childId, t - 1, 0);
    }
  }

  // ---------------------------------------------------------------- the whole graph

  function AllChildNodes(records: seq<Record>): seq<Node> {
    if records == [] then [] else AllChildNodes(records[..|records| - 1]) + ChildNodes(records[|records| - 1])
  }

  function AllLinksOfChildren(records: seq<Record>): seq<Link> {
    if records == [] then [] else AllLinksOfChildren(records[..|records| - 1]) + LinksOfChildren(records[|records| - 1])
  }

  /** The comparison the records are sorted by: no order at all when some router IDs are missing. */
  predicate RecordBefore(a: Record, b: Record) {
    if a.routerId.None? || b.routerId.None? then Less(a.rloc16, b.rloc16) else a.routerId.value < b.routerId.value
  }

  function RouterNumber(r: Record): int { if r.routerId.None? then 0 else r.routerId.value }

  predicate AllNumbered(records: seq<Record>) { forall i :: 0 <= i < |records| ==> records[i].routerId.Some? }

  /** What any sorting by that comparison promises: the same records, ascending by router ID when all have one. */
  method SortRecords(records: seq<Record>, ghost latest: map<string, Record>) returns (sorted: seq<Record>)
    requires Enumerates(records, latest)
    ensures Enumerates(sorted, latest) && (AllNumbered(sorted) ==> InRuns(sorted, RouterNumber))
    ensures (forall i :: 0 <= i < |sorted| ==> sorted[i].routerId.None?) ==>
              forall i, j :: 0 <= i < j < |sorted| ==> !Less(sorted[j].rloc16, sorted[i].rloc16)
  {
    sorted := Sort(records, RecordBefore);
    SortEnumerates(records, latest);
    SortsByNumber(records);
    SortsByLocator(records);
  }

  function ByLocator(): (Record, Record) -> bool { (a: Record, b: Record) => Less(a.rloc16, b.rloc16) }

  /** When no record has a router ID, the locators never descend. */
  lemma SortsByLocator(records: seq<Record>)
    ensures var sorted := Sort(records, RecordBefore);
            (forall i :: 0 <= i < |sorted| ==> sorted[i].routerId.None?) ==> NeverDescends(sorted, ByLocator())
  {
    var sorted := Sort(records, RecordBefore);
    if forall i :: 0 <= i < |sorted| ==> sorted[i].routerId.None? {
      SortAscends(records, RecordBefore);
      forall x, y | x in records && y in records
        ensures RecordBefore(x, y) == ByLocator()(x, y)
      {
        assert x in sorted && y in sorted;
      }
      SortAgrees(records, RecordBefore, ByLocator());
      LocatorsCompare();
      SortNeverDescends(records, ByLocator());
    }
  }

  lemma LocatorsCompare()
    ensures Asymmetric(ByLocator()) && Weak(ByLocator())
  {
    TextOrderIsStrict();
    forall a: Record, b: Record, c: Record | !Less(b.rloc16, a.rloc16) && !Less(c.rloc16, b.rloc16)
      ensures !Less(c.rloc16, a.rloc16)
    {
      LessIsTotal(a.rloc16, b.rloc16);
      LessIsTotal(b.rloc16, c.rloc16);
    }
  }

  lemma NumbersAgree(records: seq<Record>)
    requires AllNumbered(records)
    ensures forall x, y :: x in records && y in records ==> RecordBefore(x, y) == ByRank(RouterNumber)(x, y)
  {
    forall x, y | x in records && y in records
      ensures RecordBefore(x, y) == ByRank(RouterNumber)(x, y)
    {
      var i :| 0 <= i < |records| && records[i] == x;
      var j :| 0 <= j < |records| && records[j] == y;
      assert x.routerId.Some? && y.routerId.Some?;
      assert ByRank(RouterNumber)(x, y) == (RouterNumber(x) < RouterNumber(y));
    }
  }

  lemma SortsByNumber(records: seq<Record>)
    ensures AllNumbered(Sort(records, RecordBefore)) ==> InRuns(Sort(records, RecordBefore), RouterNumber)
  {
    var sorted := Sort(records, RecordBefore);
    if AllNumbered(sorted) {
      SortAscends(records, RecordBefore);
      forall i | 0 <= i < |records|
        ensures records[i].routerId.Some?
      {
        assert records[i] in records && records[i] in sorted;
      }
      NumbersAgree(records);
      SortAgrees(records, RecordBefore, ByRank(RouterNumber));
      SortIsStable(records, RouterNumber, 0);
    }
  }

  predicate DistinctRecords(records: seq<Record>) {
    forall i, j :: 0 <= i < j < |records| ==> Id(records[i]) != Id(records[j])
  }

  lemma {:induction false} InsertIsDistinct(r: Record, records: seq<Record>)
    requires DistinctRecords(records) && forall i :: 0 <= i < |records| ==> Id(records[i]) != Id(r)
    ensures DistinctRecords(Insert(r, records, RecordBefore))
  {
    if records != [] && !RecordBefore(r, records[0]) {
      var rest := Insert(r, records[1..], RecordBefore);
      InsertIsDistinct(r, records[1..]);
      InsertElements(r, records[1..], RecordBefore);
      forall j | 0 <= j < |rest|
        ensures Id(rest[j]) != Id(records[0])
      {
        assert rest[j] in rest;
      }
    }
  }

  lemma {:induction false} SortIsDistinct(records: seq<Record>)
    requires DistinctRecords(records)
    ensures DistinctRecords(Sort(records, RecordBefore))
  {
    if records != [] {
      var front, r := records[..|records| - 1], records[|records| - 1];
      SortIsDistinct(front);
      SortAscends(front, RecordBefore);
      var sorted := Sort(front, RecordBefore);
      forall i | 0 <= i < |sorted|
        ensures Id(sorted[i]) != Id(r)
      {
        assert sorted[i] in sorted && sorted[i] in front;
      }
      InsertIsDistinct(r, sorted);
    }
  }

  lemma SortEnumerates(records: seq<Record>, latest: map<string, Record>)
    requires Enumerates(records, latest)
    ensures Enumerates(Sort(records, RecordBefore), latest)
  {
    var sorted := Sort(records, RecordBefore);
    SortAscends(records, RecordBefore);
    SortIsDistinct(records);
    forall i | 0 <= i < |sorted|
      ensures Id(sorted[i]) in latest && latest[Id(sorted[i])] == sorted[i]
    {
      assert sorted[i] in sorted && sorted[i] in records;
    }
    forall key | key in latest
      ensures exists i :: 0 <= i < |sorted| && sorted[i] == latest[key]
    {
      assert latest[key] in records && latest[key] in sorted;
    }
  }

  /** The graph built from the surviving records in this order, which ascends when every router has an ID. */
  ghost predicate BuiltFrom(items: seq<Record>, records: seq<Record>, nodes: seq<Node>, links: seq<Link>) {
    && (exists latest :: IsLatest(items, latest) && Enumerates(records, latest))
    && (AllNumbered(records) ==> InRuns(records, RouterNumber))
    && nodes == RouterNodes(records) + AllChildNodes(records)
    && ExactRouterLinks(links, AllReports(records, ByExtAddress(records), ByRouterId(records)))
    && ChildLinks(links) == AllLinksOfChildren(records)
  }

  /**
   Builds the graph. For some order of the surviving records: the nodes are the
   routers and then every router's children, the router links are exactly what the
   reports say, and the child links are exactly the children's.
   */
  method DecodeTopology(items: seq<Record>) returns (nodes: seq<Node>, links: seq<Link>)
    ensures exists records :: BuiltFrom(items, records, nodes, links)
  {
    var latest := Latest(items);
    var found := Enumerate(latest);
    var records := SortRecords(found, latest);
    var routers, byExt, byId := IndexRouters(records);
    var children;
    children, links := Connect(records, byExt, byId);
    nodes := routers + children;
    assert BuiltFrom(items, records, nodes, links);
  }

  /** Lists the routers and indexes them by extended address and by router ID. */
  method IndexRouters(records: seq<Record>)
    returns (nodes: seq<Node>, byExt: map<string, string>, byId: map<int, string>)
    ensures nodes == RouterNodes(records) && byExt == ByExtAddress(records) && byId == ByRouterId(records)
  {
    byExt, byId := map[], map[];
    nodes := [];
    for i := 0 to |records|
      invariant nodes == RouterNodes(records)[..i]
      invariant byExt == ByExtAddress(records[..i]) && byId == ByRouterId(records[..i])
    {
      assert records[..i + 1][..i] == records[..i];
      nodes := nodes + [RouterNode(records[i])];
      if records[i].extAddress != "" {
        byExt := byExt[ToLower(records[i].extAddress) := Id(records[i])];
      }
      if records[i].routerId.Some? {
        byId := byId[records[i].routerId.value := Id(records[i])];
      }
    }
    assert records[..|records|] == records;
  }

  /** Goes through the records once more for their links and children. */
  method Connect(records: seq<Record>, byExt: map<string, string>, byId: map<int, string>)
    returns (nodes: seq<Node>, links: seq<Link>)
    ensures nodes == AllChildNodes(records)
    ensures ExactRouterLinks(links, AllReports(records, byExt, byId))
    ensures ChildLinks(links) == AllLinksOfChildren(records)
  {
    var b := new Builder();
    nodes := [];
    for i := 0 to |records|
      invariant b.Valid()
      invariant b.reports == AllReports(records[..i], byExt, byId)
      invariant nodes == AllChildNodes(records[..i])
      invariant ChildLinks(b.links) == AllLinksOfChildren(records[..i])
    {
      assert records[..i + 1][..i] == records[..i];
      AddReports(records[i], byExt, byId, b);
      var children := AddChildren(records[i], b);
      nodes := nodes + children;
    }
    assert records[..|records|] == records;
    BuilderIsExact(b);
    links := b.links;
  }

  /** Takes everything one record says of links: its neighbours, then its routes. */
  method AddReports(r: Record, byExt: map<string, string>, byId: map<int, string>, b: Builder)
    requires b.Valid()
    modifies b
    ensures b.Valid() && b.reports == old(b.reports) + ReportsOf(r, byExt, byId)
    ensures ChildLinks(b.links) == ChildLinks(old(b.links))
  {
    ghost var start := b.reports;
    ghost var neighbors, routes := NeighborReports(Id(r), r.neighbors, byExt), RouteReports(Id(r), r.routes, byId);
    TakeNeighbors(neighbors, b, r, byExt);
    TakeRoutes(routes, b, r, byId);
    assert start + neighbors + routes == start + (neighbors + routes);
  }

  lemma OneMoreTaken(start: seq<Report>, reports: seq<Report>, i: nat)
    requires i < |reports|
    ensures (start + reports[..i]) + [reports[i]] == start + reports[..i + 1]
  {
  }

  /** The loop over a record's neighbours. */
  method TakeNeighbors(ghost reports: seq<Report>, b: Builder, r: Record, byExt: map<string, string>)
    requires b.Valid() && reports == NeighborReports(Id(r), r.neighbors, byExt)
    modifies b
    ensures b.Valid() && b.reports == old(b.reports) + reports && ChildLinks(b.links) == ChildLinks(old(b.links))
  {
    for i := 0 to |r.neighbors|
      invariant b.Valid() && b.reports == old(b.reports) + reports[..i]
      invariant ChildLinks(b.links) == ChildLinks(old(b.links))
    {
      OneMoreTaken(old(b.reports), reports, i);
      b.AddRouterLink(NeighborReport(Id(r), r.neighbors[i], byExt));
    }
    assert reports[..|r.neighbors|] == reports;
  }

  /** The loop over its routes. */
  method TakeRoutes(ghost reports: seq<Report>, b: Builder, r: Record, byId: map<int, string>)
    requires b.Valid() && reports == RouteReports(Id(r), r.routes, byId)
    modifies b
    ensures b.Valid() && b.reports == old(b.reports) + reports && ChildLinks(b.links) == ChildLinks(old(b.links))
  {
    for i := 0 to |r.routes|
      invariant b.Valid() && b.reports == old(b.reports) + reports[..i]
      invariant ChildLinks(b.links) == ChildLinks(old(b.links))
    {
      OneMoreTaken(old(b.reports), reports, i);
      b.AddRouterLink(RouteReport(Id(r), r.routes[i], byId));
    }
    assert reports[..|r.routes|] == reports;
  }
}
