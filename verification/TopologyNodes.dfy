/** What the nodes of the topology say of routers and children (internal/otbr/client.go). */
module TopologyNodes {
  import opened Wrappers
  import opened Text
  import opened RouterLinks
  import opened Topology
  import opened Rloc

  /** A router: known by its extended address, or by its locator without one; nothing of a child's. */
  lemma RouterNodeIs(records: seq<Record>, i: nat)
    requires i < |records|
    ensures var n, r := RouterNodes(records)[i], records[i];
            && n.id == (if r.extAddress == "" then r.rloc16 else r.extAddress)
            && n.role == Router && n.rloc16 == r.rloc16 && n.routerId == r.routerId && n.extAddress == r.extAddress
            && n.parentId == "" && n.linkQuality == n.timeout == None
            && n.mode.rxOnWhenIdle == n.mode.fullDevice == n.mode.fullData == None
  {
  }

  /** The decimal text of a number. */
  predicate IsDecimalOf(text: string, n: int) {
    if n >= 0 then IsDecimal(text) && DecimalNumber(text) == n
    else text != "" && text[0] == '-' && IsDecimal(text[1..]) && DecimalNumber(text[1..]) == -n
  }

  lemma ChildTextIs(n: int)
    ensures IsDecimalOf(ChildText(n), n)
  {
    if n >= 0 {
      ItoaReadsBack(n);
    } else {
      ItoaReadsBack(-n);
      assert ("-" + Itoa(-n))[1..] == Itoa(-n);
    }
  }

  /** Before either table has said more: named after its router and its child ID, and nothing else known. */
  lemma BareChildIs(r: Record, childId: int)
    ensures var n := BareChild(r, childId);
            && (exists text: string :: IsDecimalOf(text, childId) && n.id == n.parentId + "/child/" + text)
            && n.parentId == (if r.extAddress == "" then r.rloc16 else r.extAddress)
            && n.extAddress == "" && n.linkQuality == n.timeout == None
            && n.mode.rxOnWhenIdle == n.mode.fullDevice == n.mode.fullData == None
  {
    ChildTextIs(childId);
    assert BareChild(r, childId).id == Id(r) + "/child/" + ChildText(childId);
  }

  /** Its locator is the sum of its router's and the child ID in 16 bits, if the router's can be read. */
  lemma BareLocatorIs(r: Record, childId: int)
    ensures IsDerivedFrom(ParseRloc16(r.rloc16), childId, BareChild(r, childId).rloc16)
  {
    DerivedFrom(ParseRloc16(r.rloc16), childId);
  }

  predicate IsDerivedFrom(parent: Option<nat>, childId: int, text: string) {
    if parent.None? then text == "" else ParseRloc(text) == Some((parent.value + childId) % 0x1_0000)
  }

  lemma DerivedFrom(parent: Option<nat>, childId: int)
    ensures IsDerivedFrom(parent, childId, DerivedRloc(parent, childId))
  {
    DerivedIsSum(if parent.None? then 0 else parent.value, childId);
  }

  /** Whatever the tables say, a child is a child of its router and carries the router's ID. */
  lemma {:induction false} ChildStays(r: Record, childId: int, t: nat, d: nat)
    requires t <= |r.childTable| && d <= |r.children|
    ensures var n := ChildNode(r, childId, t, d);
            && n.role == Child && n.routerId == r.routerId
            && n.parentId == (if r.extAddress == "" then r.rloc16 else r.extAddress)
    decreases t + d
  {
    if d > 0 {
      ChildStays(r, childId, t, d - 1);
    } else if t > 0 {
      ChildStays(r, childId, t - 1, 0);
    }
  }
}
