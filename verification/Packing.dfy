/**
 Where the cards of the topology map go (the arithmetic of `renderTopology` and
 `topologyGrid` in web/static/app.js). Each cluster is a router with its children
 wrapped beneath it; clusters are packed left to right into bands.
 */
module Packing {
  import opened Wrappers

  const NODE_WIDTH := 154
  const NODE_HEIGHT := 96
  const ROW_PITCH := 144
  const PARENT_GAP := 62
  const CLUSTER_GAP_X := 40
  const CLUSTER_GAP_Y := 62
  const FIRST_BAND := 78

  datatype Pos = Pos(x: int, y: int)

  /** Routers and their children by index, and the children whose parent is unknown. */
  datatype Card = RouterCard(i: nat) | ChildCard(i: nat, j: nat) | LooseCard(k: nat)

  predicate Disjoint(a: Pos, b: Pos) {
    || a.x + NODE_WIDTH <= b.x || b.x + NODE_WIDTH <= a.x
    || a.y + NODE_HEIGHT <= b.y || b.y + NODE_HEIGHT <= a.y
  }

  // ---------------------------------------------------------------- metrics

  /** The usable width: what was measured, or 1100 when that is too little to be real. */
  function Available(measured: int): (w: int)
    ensures w > 320
  {
    if measured > 320 then measured else 1100
  }

  /** Column pitch and outer margin; narrow maps use a tighter pair. */
  datatype Metrics = Metrics(width: int, margin: int, pitch: int) {
    predicate Valid() {
      && width > 320
      && (if width < 2 * 180 + 48 then margin == 12 && pitch == NODE_WIDTH + 12 else margin == 24 && pitch == 180)
    }

    /** Half of what is left of a column beside its card. */
    function Half(): int { (pitch - NODE_WIDTH) / 2 }

    function Columns(): (c: nat)
      requires Valid()
      ensures c >= 1 && c * pitch <= width - 2 * margin + pitch - NODE_WIDTH
    {
      var c := (width - 2 * margin + (pitch - NODE_WIDTH)) / pitch;
      if c > 1 then c else 1
    }
  }

  function MetricsFor(measured: int): (m: Metrics)
    ensures m.Valid()
  {
    var width := Available(measured);
    if width < 2 * 180 + 48 then Metrics(width, 12, NODE_WIDTH + 12) else Metrics(width, 24, 180)
  }

  /** `Math.round(n / 2)`: halves go up. */
  function HalfRound(n: int): (r: int)
    ensures n <= 2 * r <= n + 1
  {
    (n + 1) / 2
  }

  function CeilDiv(a: nat, b: nat): (r: nat)
    requires b > 0
  {
    (a + b - 1) / b
  }

  /** The least side of a square holding `n`. */
  function CeilSqrt(n: nat): (r: nat)
    ensures r * r >= n && (r > 0 ==> (r - 1) * (r - 1) < n)
  {
    if n == 0 then 0
    else
      var r := CeilSqrt(n - 1);
      if r * r >= n then r else r + 1
  }

  function NaturalCols(count: nat): (c: nat)
    ensures c >= 1
  {
    if count <= 4 then (if count > 1 then count else 1) else CeilSqrt(count)
  }

  function NaturalWidth(m: Metrics, kids: seq<nat>): int {
    if kids == [] then 0
    else NaturalWidth(m, kids[..|kids| - 1]) + NaturalCols(kids[|kids| - 1]) * m.pitch + CLUSTER_GAP_X
  }

  /** Squeeze to two clusters a band only when the natural layout does not fit and there are three columns. */
  function MaxClusterCols(m: Metrics, kids: seq<nat>): (c: nat)
    requires m.Valid()
    ensures 1 <= c <= m.Columns()
  {
    if NaturalWidth(m, kids) - CLUSTER_GAP_X <= m.width - 2 * m.margin || m.Columns() < 3 then m.Columns()
    else if (m.Columns() - 1) / 2 > 1 then (m.Columns() - 1) / 2 else 1
  }

  datatype Cluster = Cluster(kids: nat, cols: nat, rows: nat, width: int, height: int)

  function ClusterFor(m: Metrics, maxCols: nat, kids: nat): Cluster
    requires maxCols >= 1
  {
    var natural := NaturalCols(kids);
    var cols := if maxCols < natural then maxCols else natural;
    var rows := CeilDiv(kids, cols);
    Cluster(kids, cols, rows,
            if m.pitch > cols * m.pitch then m.pitch else cols * m.pitch,
            NODE_HEIGHT + if rows > 0 then PARENT_GAP + (rows - 1) * ROW_PITCH + NODE_HEIGHT else 0)
  }

  /** What packing needs of a cluster: at least one column, no wider than the map, tall enough for its rows. */
  predicate GoodCluster(m: Metrics, c: Cluster)
    requires m.Valid()
  {
    && 1 <= c.cols <= m.Columns()
    && c.width == c.cols * m.pitch
    && c.rows == CeilDiv(c.kids, c.cols)
    && c.height == NODE_HEIGHT + (if c.rows > 0 then PARENT_GAP + (c.rows - 1) * ROW_PITCH + NODE_HEIGHT else 0)
  }

  lemma ClusterIsGood(m: Metrics, maxCols: nat, kids: nat)
    requires m.Valid() && 1 <= maxCols <= m.Columns()
    ensures GoodCluster(m, ClusterFor(m, maxCols, kids)) && ClusterFor(m, maxCols, kids).kids == kids
  {
    var c := ClusterFor(m, maxCols, kids);
    assert c.cols * m.pitch >= m.pitch;
  }

  // ---------------------------------------------------------------- one cluster

  function RouterPos(c: Cluster, cursorX: int, bandTop: int): Pos {
    Pos(HalfRound(2 * cursorX + c.width - NODE_WIDTH), bandTop)
  }

  function InRow(count: nat, cols: nat, row: nat): int
  {
    if cols < count - row * cols then cols else count - row * cols
  }

  function KidPos(m: Metrics, c: Cluster, cursorX: int, bandTop: int, index: nat): Pos
    requires c.cols >= 1
  {
    var row, col := index / c.cols, index % c.cols;
    var rowWidth := InRow(c.kids, c.cols, row) * m.pitch;
    var startX := cursorX + HalfRound(c.width - rowWidth + m.pitch - NODE_WIDTH);
    Pos(startX + col * m.pitch, bandTop + NODE_HEIGHT + PARENT_GAP + row * ROW_PITCH)
  }

  /** A card in its own column of its row: where it stands between the edges of `cols` columns starting at `left`. */
  lemma RowColumn(count: nat, cols: nat, index: nat)
    requires cols >= 1 && index < count
    ensures var row, col := index / cols, index % cols;
            && index == row * cols + col && 0 <= col < InRow(count, cols, row) <= cols
            && row < CeilDiv(count, cols)
  {
    var row, col := index / cols, index % cols;
    assert index == row * cols + col;
    assert row * cols + col < count;
    CeilCovers(count, cols, row);
  }

  lemma CeilCovers(count: nat, cols: nat, row: nat)
    requires cols >= 1 && row * cols < count
    ensures row < CeilDiv(count, cols)
  {
    var k := CeilDiv(count, cols);
    assert count + cols - 1 == k * cols + (count + cols - 1) % cols;
    assert count <= k * cols;
    ScaleIf(k, row, cols);
  }

  lemma ScaleIf(a: int, b: int, p: int)
    requires p >= 0
    ensures a <= b ==> a * p <= b * p
  {
  }

  lemma Scale(a: int, b: int, p: int)
    requires a <= b && p >= 0
    ensures a * p <= b * p
  {
  }

  /** A child stands inside its cluster's columns, in its row. */
  lemma KidInside(m: Metrics, c: Cluster, cursorX: int, bandTop: int, index: nat)
    requires m.Valid() && GoodCluster(m, c) && index < c.kids
    ensures var p := KidPos(m, c, cursorX, bandTop, index);
            && cursorX + m.Half() <= p.x && p.x + NODE_WIDTH <= cursorX + c.width - m.Half()
            && bandTop + NODE_HEIGHT + PARENT_GAP <= p.y && p.y + NODE_HEIGHT <= bandTop + c.height
  {
    RowColumn(c.kids, c.cols, index);
    var row, col := index / c.cols, index % c.cols;
    var inRow := InRow(c.kids, c.cols, row);
    Scale(inRow, c.cols, m.pitch);
    Scale(col, inRow - 1, m.pitch);
    Scale(0, col, m.pitch);
    assert (inRow - 1) * m.pitch == inRow * m.pitch - m.pitch;
    assert row <= c.rows - 1;
  }

  lemma KidsDisjoint(m: Metrics, c: Cluster, cursorX: int, bandTop: int, i: nat, j: nat)
    requires m.Valid() && GoodCluster(m, c) && i < j < c.kids
    ensures Disjoint(KidPos(m, c, cursorX, bandTop, i), KidPos(m, c, cursorX, bandTop, j))
  {
    RowColumn(c.kids, c.cols, i);
    RowColumn(c.kids, c.cols, j);
    if i / c.cols == j / c.cols {
      assert i % c.cols < j % c.cols;
      Scale(i % c.cols + 1, j % c.cols, m.pitch);
      assert (i % c.cols + 1) * m.pitch == i % c.cols * m.pitch + m.pitch;
    }
  }

  // ---------------------------------------------------------------- the packing

  /** The last cluster of the band with children: its router may move over to make room in its top row. */
  datatype Host = Host(router: nat, cols: nat, left: int)

  datatype Layout = Layout(cursorX: int, bandTop: int, bandHeight: int, host: Option<Host>, tucked: nat,
                           pos: map<Card, Pos>)

  predicate Overflows(m: Metrics, s: Layout, c: Cluster) {
    s.cursorX > m.margin && s.cursorX + c.width > m.width - m.margin
  }

  predicate CanTuck(s: Layout, c: Cluster) {
    c.kids == 0 && s.host.Some? && s.host.value.cols - 1 - s.tucked > 0
  }

  /** A childless router takes the next slot beside the host's router, which stands over the first column. */
  function Tuck(m: Metrics, s: Layout, i: nat): Layout
    requires s.host.Some? && RouterCard(s.host.value.router) in s.pos
  {
    var hostCard := RouterCard(s.host.value.router);
    var pos := if s.tucked == 0 then s.pos[hostCard := Pos(s.host.value.left, s.pos[hostCard].y)] else s.pos;
    s.(tucked := s.tucked + 1,
       pos := pos[RouterCard(i) := Pos(pos[hostCard].x + (s.tucked + 1) * m.pitch, s.bandTop)])
  }

  function NewBand(m: Metrics, s: Layout): Layout {
    s.(bandTop := s.bandTop + s.bandHeight + CLUSTER_GAP_Y, bandHeight := 0, cursorX := m.margin,
       host := None, tucked := 0)
  }

  function KidPositions(m: Metrics, c: Cluster, i: nat, cursorX: int, bandTop: int, n: nat): map<Card, Pos>
    requires c.cols >= 1
  {
    map card: Card | card in (set j: nat | j < n :: ChildCard(i, j)) :: KidPos(m, c, cursorX, bandTop, card.j)
  }

  function Place(m: Metrics, s: Layout, i: nat, c: Cluster): Layout
    requires c.cols >= 1
  {
    s.(pos := s.pos[RouterCard(i) := RouterPos(c, s.cursorX, s.bandTop)]
              + KidPositions(m, c, i, s.cursorX, s.bandTop, c.kids),
       host := if c.kids > 0 then Some(Host(i, c.cols, s.cursorX + HalfRound(m.pitch - NODE_WIDTH))) else s.host,
       tucked := if c.kids > 0 then 0 else s.tucked,
       bandHeight := if c.height > s.bandHeight then c.height else s.bandHeight,
       cursorX := s.cursorX + c.width + CLUSTER_GAP_X)
  }

  // ---------------------------------------------------------------- what packing keeps

  /** Exactly the cards of the first `n` clusters have a place. */
  ghost predicate AllPlaced(s: Layout, clusters: seq<Cluster>, n: nat)
    requires n <= |clusters|
  {
    forall card: Card :: card in s.pos <==>
      match card
      case RouterCard(i) => i < n
      case ChildCard(i, j) => i < n && j < clusters[i].kids
      case LooseCard(_) => false
  }

  predicate Apart(pos: map<Card, Pos>) {
    forall a, b :: a in pos && b in pos && a != b ==> Disjoint(pos[a], pos[b])
  }

  /** A placed card is inside the map's width, and either above the band being filled or left of the cursor in it. */
  predicate Settled(m: Metrics, s: Layout, p: Pos) {
    && m.margin <= p.x && p.x + NODE_WIDTH <= m.width && FIRST_BAND <= p.y
    && (|| p.y + NODE_HEIGHT <= s.bandTop
        || (s.bandTop <= p.y && p.y + NODE_HEIGHT <= s.bandTop + s.bandHeight && p.x + NODE_WIDTH <= s.cursorX))
  }

  /** The host's top row, from its first column to its last. */
  predicate InHostRow(m: Metrics, s: Layout, h: Host, p: Pos) {
    && p.y + NODE_HEIGHT > s.bandTop && p.y < s.bandTop + NODE_HEIGHT
    && p.x + NODE_WIDTH > h.left && p.x < h.left + (h.cols - 1) * m.pitch + NODE_WIDTH
  }

  /** The host and the routers tucked beside it stand in consecutive columns of its top row. */
  predicate HostGroup(m: Metrics, s: Layout, h: Host, guests: seq<nat>) {
    && h.cols >= 1 && s.tucked == |guests| && s.tucked <= h.cols - 1
    && m.margin <= h.left && h.left + (h.cols - 1) * m.pitch + NODE_WIDTH <= s.cursorX
    && h.left + (h.cols - 1) * m.pitch + NODE_WIDTH <= m.width
    && RouterCard(h.router) in s.pos && s.pos[RouterCard(h.router)].y == s.bandTop
    && (s.tucked > 0 ==> s.pos[RouterCard(h.router)].x == h.left)
    && (forall k :: 0 <= k < |guests| ==> GuestStands(m, s, h, guests[k], k + 1))
  }

  predicate GuestStands(m: Metrics, s: Layout, h: Host, guest: nat, slot: nat) {
    RouterCard(guest) in s.pos && s.pos[RouterCard(guest)] == Pos(h.left + slot * m.pitch, s.bandTop)
  }

  /** Nothing else stands in that row. */
  predicate RowReserved(m: Metrics, s: Layout, h: Host, guests: seq<nat>) {
    forall card :: card in s.pos && InHostRow(m, s, h, s.pos[card]) ==>
      card == RouterCard(h.router) || IsGuest(card, guests)
  }

  predicate HostRow(m: Metrics, s: Layout, guests: seq<nat>) {
    match s.host
    case None => s.tucked == 0 && guests == []
    case Some(h) => HostGroup(m, s, h, guests) && RowReserved(m, s, h, guests)
  }

  predicate IsGuest(card: Card, guests: seq<nat>) {
    exists k :: 0 <= k < |guests| && card == RouterCard(guests[k])
  }

  /** Every child stands below its own router. */
  ghost predicate ChildrenBelow(s: Layout) {
    forall i: nat, j: nat {:trigger ChildCard(i, j)} :: ChildCard(i, j) in s.pos && RouterCard(i) in s.pos ==>
      s.pos[ChildCard(i, j)].y >= s.pos[RouterCard(i)].y + NODE_HEIGHT + PARENT_GAP
  }

  ghost predicate Packed(m: Metrics, s: Layout, clusters: seq<Cluster>, n: nat, guests: seq<nat>)
    requires n <= |clusters|
  {
    && m.margin <= s.cursorX && FIRST_BAND <= s.bandTop && 0 <= s.bandHeight
    && AllPlaced(s, clusters, n)
    && Apart(s.pos)
    && (forall card :: card in s.pos ==> Settled(m, s, s.pos[card]))
    && HostRow(m, s, guests)
    && ChildrenBelow(s)
  }

  lemma StartPacked(m: Metrics, clusters: seq<Cluster>)
    ensures Packed(m, Layout(m.margin, FIRST_BAND, 0, None, 0, map[]), clusters, 0, [])
  {
  }

  lemma NewBandPacked(m: Metrics, s: Layout, clusters: seq<Cluster>, n: nat, guests: seq<nat>)
    requires n <= |clusters| && Packed(m, s, clusters, n, guests)
    ensures Packed(m, NewBand(m, s), clusters, n, [])
  {
  }

  /** Room for the next cluster: it fits beside the others, or the band is empty. */
  predicate Fits(m: Metrics, s: Layout, c: Cluster) { !Overflows(m, s, c) }

  /** The cards of a cluster about to be placed stand right of the cursor, inside the map and below the band's top. */
  lemma NewCardsFit(m: Metrics, s: Layout, c: Cluster)
    requires m.Valid() && GoodCluster(m, c) && Fits(m, s, c) && m.margin <= s.cursorX
    ensures var p := RouterPos(c, s.cursorX, s.bandTop);
            s.cursorX + m.Half() <= p.x && p.x + NODE_WIDTH <= s.cursorX + c.width - m.Half()
    ensures s.cursorX + c.width - m.Half() <= m.width
  {
    Scale(c.cols, m.Columns(), m.pitch);
    Scale(1, c.cols, m.pitch);
  }

  /** What placing a cluster does to the positions. */
  lemma PlaceLookup(m: Metrics, s: Layout, i: nat, c: Cluster, clusters: seq<Cluster>)
    requires c.cols >= 1 && i < |clusters| && clusters[i] == c && AllPlaced(s, clusters, i)
    ensures var r := Place(m, s, i, c);
            && AllPlaced(r, clusters, i + 1)
            && r.pos[RouterCard(i)] == RouterPos(c, s.cursorX, s.bandTop)
            && (forall j: nat :: j < c.kids ==> r.pos[ChildCard(i, j)] == KidPos(m, c, s.cursorX, s.bandTop, j))
            && (forall card :: card in s.pos ==> r.pos[card] == s.pos[card])
            && (forall card :: card in r.pos ==> card in s.pos || IsNew(card, i, c))
  {
    var kids := KidPositions(m, c, i, s.cursorX, s.bandTop, c.kids);
    assert forall j: nat :: ChildCard(i, j) in kids <==> j < c.kids;
    assert forall card :: card in s.pos ==> card != RouterCard(i) && card !in kids;
  }

  /** The cards of cluster `i`. */
  predicate IsNew(card: Card, i: nat, c: Cluster) {
    card == RouterCard(i) || (card.ChildCard? && card.i == i && card.j < c.kids)
  }

  function NewPos(m: Metrics, s: Layout, c: Cluster, card: Card): Pos
    requires c.cols >= 1
  {
    if card.ChildCard? then KidPos(m, c, s.cursorX, s.bandTop, card.j) else RouterPos(c, s.cursorX, s.bandTop)
  }

  /** Where a new card stands: right of everything in the band, inside the map, no lower than its cluster. */
  lemma NewCardStands(m: Metrics, s: Layout, i: nat, c: Cluster, card: Card)
    requires m.Valid() && GoodCluster(m, c) && Fits(m, s, c) && m.margin <= s.cursorX && IsNew(card, i, c)
    ensures var p := NewPos(m, s, c, card);
            && s.cursorX + m.Half() <= p.x && p.x + NODE_WIDTH <= s.cursorX + c.width - m.Half()
            && p.x + NODE_WIDTH <= m.width
            && s.bandTop <= p.y && p.y + NODE_HEIGHT <= s.bandTop + c.height
            && (card.ChildCard? ==> p.y >= s.bandTop + NODE_HEIGHT + PARENT_GAP)
  {
    NewCardsFit(m, s, c);
    if card.ChildCard? {
      KidInside(m, c, s.cursorX, s.bandTop, card.j);
    }
  }

  lemma NewCardsDisjoint(m: Metrics, s: Layout, i: nat, c: Cluster, a: Card, b: Card)
    requires m.Valid() && GoodCluster(m, c) && Fits(m, s, c) && m.margin <= s.cursorX
    requires IsNew(a, i, c) && IsNew(b, i, c) && a != b
    ensures Disjoint(NewPos(m, s, c, a), NewPos(m, s, c, b))
  {
    NewCardStands(m, s, i, c, a);
    NewCardStands(m, s, i, c, b);
    if a.ChildCard? && b.ChildCard? {
      if a.j < b.j {
        KidsDisjoint(m, c, s.cursorX, s.bandTop, a.j, b.j);
      } else {
        KidsDisjoint(m, c, s.cursorX, s.bandTop, b.j, a.j);
      }
    }
  }

  lemma OldAndNewDisjoint(m: Metrics, s: Layout, i: nat, c: Cluster, settled: Pos, card: Card)
    requires m.Valid() && GoodCluster(m, c) && Fits(m, s, c) && m.margin <= s.cursorX && IsNew(card, i, c)
    requires Settled(m, s, settled)
    ensures Disjoint(settled, NewPos(m, s, c, card)) && Disjoint(NewPos(m, s, c, card), settled)
  {
    NewCardStands(m, s, i, c, card);
  }

  lemma PlaceApart(m: Metrics, s: Layout, clusters: seq<Cluster>, i: nat, guests: seq<nat>)
    requires m.Valid() && i < |clusters| && GoodCluster(m, clusters[i]) && Fits(m, s, clusters[i])
    requires Packed(m, s, clusters, i, guests)
    ensures Apart(Place(m, s, i, clusters[i]).pos)
  {
    var c := clusters[i];
    var r := Place(m, s, i, c);
    PlaceLookup(m, s, i, c, clusters);
    forall a, b | a in r.pos && b in r.pos && a != b
      ensures Disjoint(r.pos[a], r.pos[b])
    {
      if a in s.pos && b !in s.pos {
        OldAndNewDisjoint(m, s, i, c, s.pos[a], b);
      } else if a !in s.pos && b in s.pos {
        OldAndNewDisjoint(m, s, i, c, s.pos[b], a);
      } else if a !in s.pos && b !in s.pos {
        NewCardsDisjoint(m, s, i, c, a, b);
      }
    }
  }

  lemma PlaceSettled(m: Metrics, s: Layout, clusters: seq<Cluster>, i: nat, guests: seq<nat>)
    requires m.Valid() && i < |clusters| && GoodCluster(m, clusters[i]) && Fits(m, s, clusters[i])
    requires Packed(m, s, clusters, i, guests)
    ensures var r := Place(m, s, i, clusters[i]);
            (forall card :: card in r.pos ==> Settled(m, r, r.pos[card])) && ChildrenBelow(r)
  {
    var c := clusters[i];
    var r := Place(m, s, i, c);
    PlaceLookup(m, s, i, c, clusters);
    forall card | card in r.pos
      ensures Settled(m, r, r.pos[card])
    {
      if card !in s.pos {
        NewCardStands(m, s, i, c, card);
      } else {
        assert Settled(m, s, s.pos[card]);
        assert c.width >= 0 by { Scale(0, c.cols, m.pitch); }
      }
    }
    forall k: nat, j: nat | ChildCard(k, j) in r.pos && RouterCard(k) in r.pos
      ensures r.pos[ChildCard(k, j)].y >= r.pos[RouterCard(k)].y + NODE_HEIGHT + PARENT_GAP
    {
      if ChildCard(k, j) !in s.pos {
        NewCardStands(m, s, i, c, ChildCard(k, j));
      } else {
        assert RouterCard(k) in s.pos;
      }
    }
  }

  /** A cluster with children is the new host and has its row to itself. */
  lemma PlaceNewHost(m: Metrics, s: Layout, clusters: seq<Cluster>, i: nat, guests: seq<nat>)
    requires m.Valid() && i < |clusters| && GoodCluster(m, clusters[i]) && Fits(m, s, clusters[i])
    requires Packed(m, s, clusters, i, guests) && clusters[i].kids > 0
    ensures HostRow(m, Place(m, s, i, clusters[i]), [])
  {
    var c := clusters[i];
    var r := Place(m, s, i, c);
    var h := r.host.value;
    PlaceLookup(m, s, i, c, clusters);
    NewCardsFit(m, s, c);
    assert (c.cols - 1) * m.pitch == c.cols * m.pitch - m.pitch;
    forall card | card in s.pos
      ensures !InHostRow(m, r, h, s.pos[card])
    {
      assert Settled(m, s, s.pos[card]);
    }
    forall card | card in r.pos && InHostRow(m, r, h, r.pos[card])
      ensures card == RouterCard(i)
    {
      NewCardStands(m, s, i, c, card);
    }
  }

  /** A childless cluster leaves the host's row alone. */
  lemma PlaceBesideHost(m: Metrics, s: Layout, clusters: seq<Cluster>, i: nat, guests: seq<nat>)
    requires m.Valid() && i < |clusters| && GoodCluster(m, clusters[i]) && Fits(m, s, clusters[i])
    requires Packed(m, s, clusters, i, guests) && clusters[i].kids == 0
    ensures HostRow(m, Place(m, s, i, clusters[i]), guests)
  {
    var c := clusters[i];
    var r := Place(m, s, i, c);
    PlaceLookup(m, s, i, c, clusters);
    if s.host.Some? {
      var h := s.host.value;
      Scale(0, c.cols, m.pitch);
      forall card | card in r.pos && InHostRow(m, r, h, r.pos[card])
        ensures card == RouterCard(h.router) || IsGuest(card, guests)
      {
        if card !in s.pos {
          NewCardStands(m, s, i, c, card);
        } else {
          assert InHostRow(m, s, h, s.pos[card]);
        }
      }
    }
  }

  lemma PlacePacked(m: Metrics, s: Layout, clusters: seq<Cluster>, i: nat, guests: seq<nat>)
    requires m.Valid() && i < |clusters| && GoodCluster(m, clusters[i]) && Fits(m, s, clusters[i])
    requires Packed(m, s, clusters, i, guests)
    ensures Packed(m, Place(m, s, i, clusters[i]), clusters, i + 1, if clusters[i].kids > 0 then [] else guests)
  {
    var c := clusters[i];
    PlaceLookup(m, s, i, c, clusters);
    PlaceApart(m, s, clusters, i, guests);
    PlaceSettled(m, s, clusters, i, guests);
    if c.kids > 0 {
      PlaceNewHost(m, s, clusters, i, guests);
    } else {
      PlaceBesideHost(m, s, clusters, i, guests);
    }
    assert c.width >= 0 by { Scale(0, c.cols, m.pitch); }
  }

  // ---------------------------------------------------------------- tucking

  /** Where a tucked router goes: the next column of the host's top row. */
  function TuckedPos(m: Metrics, s: Layout): Pos
    requires s.host.Some?
  {
    Pos(s.host.value.left + (s.tucked + 1) * m.pitch, s.bandTop)
  }

  lemma TuckLookup(m: Metrics, s: Layout, clusters: seq<Cluster>, i: nat, guests: seq<nat>)
    requires m.Valid() && i < |clusters| && clusters[i].kids == 0
    requires Packed(m, s, clusters, i, guests) && CanTuck(s, clusters[i])
    ensures var h := s.host.value;
            var r := Tuck(m, s, i);
            && AllPlaced(r, clusters, i + 1)
            && r.pos[RouterCard(i)] == TuckedPos(m, s)
            && r.pos[RouterCard(h.router)] == Pos(h.left, s.bandTop)
            && RouterCard(i) !in s.pos
            && (forall card :: card in s.pos && card != RouterCard(h.router) ==> r.pos[card] == s.pos[card])
            && (forall card :: card in r.pos ==> card in s.pos || card == RouterCard(i))
  {
  }

  /** The tucked router's slot and the host's new place lie in the host's row, one pitch and more from every guest. */
  lemma SlotsInRow(m: Metrics, s: Layout, h: Host, k: nat)
    requires m.Valid() && h.cols >= 1 && k <= h.cols - 1
    ensures h.left <= h.left + k * m.pitch <= h.left + (h.cols - 1) * m.pitch
  {
    Scale(0, k, m.pitch);
    Scale(k, h.cols - 1, m.pitch);
  }

  lemma SlotsApart(m: Metrics, h: Host, y: int, a: nat, b: nat)
    requires m.Valid() && a < b
    ensures Disjoint(Pos(h.left + a * m.pitch, y), Pos(h.left + b * m.pitch, y))
  {
    Scale(a + 1, b, m.pitch);
    assert (a + 1) * m.pitch == a * m.pitch + m.pitch;
  }

  /** A card that is not in the host's row is clear of every slot of the row. */
  lemma OutsideRow(m: Metrics, s: Layout, h: Host, p: Pos, k: nat)
    requires m.Valid() && h.cols >= 1 && k <= h.cols - 1 && !InHostRow(m, s, h, p)
    ensures Disjoint(p, Pos(h.left + k * m.pitch, s.bandTop)) && Disjoint(Pos(h.left + k * m.pitch, s.bandTop), p)
  {
    SlotsInRow(m, s, h, k);
  }

  /** The slot of a card standing in the host's row after tucking: 0 for the host, one more for each guest. */
  ghost predicate InSlot(m: Metrics, s: Layout, r: Layout, guests: seq<nat>, card: Card, k: nat)
    requires s.host.Some?
  {
    && card in r.pos && k <= |guests|
    && card == (if k == 0 then RouterCard(s.host.value.router) else RouterCard(guests[k - 1]))
    && r.pos[card] == Pos(s.host.value.left + k * m.pitch, s.bandTop)
  }

  lemma EachHasSlot(m: Metrics, s: Layout, clusters: seq<Cluster>, i: nat, guests: seq<nat>, card: Card)
    requires m.Valid() && i < |clusters| && clusters[i].kids == 0
    requires Packed(m, s, clusters, i, guests) && CanTuck(s, clusters[i])
    requires card in Tuck(m, s, i).pos
    ensures var h, r, all := s.host.value, Tuck(m, s, i), guests + [i];
            (exists k: nat :: InSlot(m, s, r, all, card, k))
            || (card in s.pos && r.pos[card] == s.pos[card] && !InHostRow(m, s, h, s.pos[card]))
  {
    var h, r, all := s.host.value, Tuck(m, s, i), guests + [i];
    TuckLookup(m, s, clusters, i, guests);
    if card == RouterCard(i) {
      assert InSlot(m, s, r, all, card, |all|);
    } else if card == RouterCard(h.router) {
      assert InSlot(m, s, r, all, card, 0);
    } else if IsGuest(card, guests) {
      var k :| 0 <= k < |guests| && card == RouterCard(guests[k]);
      assert all[k] == guests[k] && GuestStands(m, s, h, guests[k], k + 1);
      assert InSlot(m, s, r, all, card, k + 1);
    }
  }

  lemma TuckApart(m: Metrics, s: Layout, clusters: seq<Cluster>, i: nat, guests: seq<nat>)
    requires m.Valid() && i < |clusters| && clusters[i].kids == 0
    requires Packed(m, s, clusters, i, guests) && CanTuck(s, clusters[i])
    ensures Apart(Tuck(m, s, i).pos)
  {
    var h, r, all := s.host.value, Tuck(m, s, i), guests + [i];
    forall a, b | a in r.pos && b in r.pos && a != b
      ensures Disjoint(r.pos[a], r.pos[b])
    {
      EachHasSlot(m, s, clusters, i, guests, a);
      EachHasSlot(m, s, clusters, i, guests, b);
      if k: nat :| InSlot(m, s, r, all, a, k) {
        if l: nat :| InSlot(m, s, r, all, b, l) {
          if k < l {
            SlotsApart(m, h, s.bandTop, k, l);
          } else if l < k {
            SlotsApart(m, h, s.bandTop, l, k);
          }
        } else {
          OutsideRow(m, s, h, r.pos[b], k);
        }
      } else if l: nat :| InSlot(m, s, r, all, b, l) {
        OutsideRow(m, s, h, r.pos[a], l);
      }
    }
  }

  lemma TuckSettled(m: Metrics, s: Layout, clusters: seq<Cluster>, i: nat, guests: seq<nat>)
    requires m.Valid() && i < |clusters| && clusters[i].kids == 0
    requires Packed(m, s, clusters, i, guests) && CanTuck(s, clusters[i])
    ensures var r := Tuck(m, s, i);
            (forall card :: card in r.pos ==> Settled(m, r, r.pos[card])) && ChildrenBelow(r)
  {
    var h, r := s.host.value, Tuck(m, s, i);
    TuckLookup(m, s, clusters, i, guests);
    assert Settled(m, s, s.pos[RouterCard(h.router)]);
    SlotsInRow(m, s, h, s.tucked + 1);
    SlotsInRow(m, s, h, 0);
    forall card | card in r.pos
      ensures Settled(m, r, r.pos[card])
    {
      if card in s.pos && card != RouterCard(h.router) {
        assert Settled(m, s, s.pos[card]);
      }
    }
    forall k: nat, j: nat | ChildCard(k, j) in r.pos && RouterCard(k) in r.pos
      ensures r.pos[ChildCard(k, j)].y >= r.pos[RouterCard(k)].y + NODE_HEIGHT + PARENT_GAP
    {
      assert ChildCard(k, j) in s.pos && RouterCard(k) in s.pos;
    }
  }

  lemma TuckHostRow(m: Metrics, s: Layout, clusters: seq<Cluster>, i: nat, guests: seq<nat>)
    requires m.Valid() && i < |clusters| && clusters[i].kids == 0
    requires Packed(m, s, clusters, i, guests) && CanTuck(s, clusters[i])
    ensures HostRow(m, Tuck(m, s, i), guests + [i])
  {
    var h, r, all := s.host.value, Tuck(m, s, i), guests + [i];
    TuckLookup(m, s, clusters, i, guests);
    forall k | 0 <= k < |all|
      ensures GuestStands(m, r, h, all[k], k + 1)
    {
      if k < |guests| {
        Scale(1, k + 1, m.pitch);
        assert all[k] == guests[k] && GuestStands(m, s, h, guests[k], k + 1);
      }
    }
    forall card | card in r.pos && InHostRow(m, r, h, r.pos[card])
      ensures card == RouterCard(h.router) || IsGuest(card, all)
    {
      EachHasSlot(m, s, clusters, i, guests, card);
      if k: nat :| InSlot(m, s, r, all, card, k) {
        assert k > 0 ==> card == RouterCard(all[k - 1]);
      }
    }
  }

  lemma TuckPacked(m: Metrics, s: Layout, clusters: seq<Cluster>, i: nat, guests: seq<nat>)
    requires m.Valid() && i < |clusters| && clusters[i].kids == 0
    requires Packed(m, s, clusters, i, guests) && CanTuck(s, clusters[i])
    ensures Packed(m, Tuck(m, s, i), clusters, i + 1, guests + [i])
  {
    TuckLookup(m, s, clusters, i, guests);
    TuckApart(m, s, clusters, i, guests);
    TuckSettled(m, s, clusters, i, guests);
    TuckHostRow(m, s, clusters, i, guests);
  }

  // ---------------------------------------------------------------- the loop

  /** What happens to one cluster. */
  function PackOne(m: Metrics, s: Layout, i: nat, c: Cluster): Layout
    requires c.cols >= 1
    requires s.host.Some? ==> RouterCard(s.host.value.router) in s.pos
  {
    if Overflows(m, s, c) then
      if CanTuck(s, c) then Tuck(m, s, i) else Place(m, NewBand(m, s), i, c)
    else Place(m, s, i, c)
  }

  lemma PackOnePacked(m: Metrics, s: Layout, clusters: seq<Cluster>, i: nat, guests: seq<nat>) returns (after: seq<nat>)
    requires m.Valid() && i < |clusters| && GoodCluster(m, clusters[i])
    requires Packed(m, s, clusters, i, guests)
    ensures Packed(m, PackOne(m, s, i, clusters[i]), clusters, i + 1, after)
  {
    var c := clusters[i];
    if Overflows(m, s, c) {
      if CanTuck(s, c) {
        TuckPacked(m, s, clusters, i, guests);
        after := guests + [i];
      } else {
        NewBandPacked(m, s, clusters, i, guests);
        PlacePacked(m, NewBand(m, s), clusters, i, []);
        after := [];
      }
    } else {
      PlacePacked(m, s, clusters, i, guests);
      after := if c.kids > 0 then [] else guests;
    }
  }

  /** The turns of the loop: from the start, one cluster after another. */
  ghost predicate Turns(m: Metrics, clusters: seq<Cluster>, turns: seq<Layout>) {
    && 1 <= |turns| <= |clusters| + 1 && turns[0] == Layout(m.margin, 78, 0, None, 0, map[])
    && forall i :: 0 <= i < |turns| - 1 ==> IsTurn(m, turns[i], i, clusters[i], turns[i + 1])
  }

  predicate IsTurn(m: Metrics, s: Layout, i: nat, c: Cluster, t: Layout) {
    && c.cols >= 1 && (s.host.Some? ==> RouterCard(s.host.value.router) in s.pos)
    && t == PackOne(m, s, i, c)
  }

  /** Packs the clusters left to right. */
  method Pack(m: Metrics, clusters: seq<Cluster>) returns (s: Layout, ghost turns: seq<Layout>)
    requires m.Valid() && forall i :: 0 <= i < |clusters| ==> GoodCluster(m, clusters[i])
    ensures exists guests :: Packed(m, s, clusters, |clusters|, guests)
    ensures Turns(m, clusters, turns) && |turns| == |clusters| + 1 && turns[|clusters|] == s
  {
    s := Layout(m.margin, FIRST_BAND, 0, None, 0, map[]);
    turns := [s];
    ghost var guests: seq<nat> := [];
    StartPacked(m, clusters);
    for i := 0 to |clusters|
      invariant Packed(m, s, clusters, i, guests)
      invariant Turns(m, clusters, turns) && |turns| == i + 1 && turns[i] == s
    {
      guests := PackOnePacked(m, s, clusters, i, guests);
      s := PackStep(m, s, i, clusters[i]);
      turns := turns + [s];
    }
  }

  /**
   One turn of the loop: a cluster without room is tucked beside the host if it is a lone
   router, and opens a band otherwise.
   */
  method PackStep(m: Metrics, s: Layout, i: nat, cluster: Cluster) returns (r: Layout)
    requires cluster.cols >= 1 && (s.host.Some? ==> RouterCard(s.host.value.router) in s.pos)
    ensures r == PackOne(m, s, i, cluster)
  {
    var Layout(cursorX, bandTop, bandHeight, host, tucked, pos) := s;
    if cursorX > m.margin && cursorX + cluster.width > m.width - m.margin {
      if cluster.kids == 0 && host.Some? && host.value.cols - 1 - tucked > 0 {
        var hostCard := RouterCard(host.value.router);
        if tucked == 0 {
          pos := pos[hostCard := Pos(host.value.left, pos[hostCard].y)];
        }
        tucked := tucked + 1;
        pos := pos[RouterCard(i) := Pos(pos[hostCard].x + tucked * m.pitch, bandTop)];
        return Layout(cursorX, bandTop, bandHeight, host, tucked, pos);
      }
      bandTop := bandTop + bandHeight + CLUSTER_GAP_Y;
      bandHeight := 0;
      cursorX := m.margin;
      host := None;
      tucked := 0;
    }
    pos := pos[RouterCard(i) := Pos(HalfRound(2 * cursorX + cluster.width - NODE_WIDTH), bandTop)];
    if cluster.kids > 0 {
      host := Some(Host(i, cluster.cols, cursorX + HalfRound(m.pitch - NODE_WIDTH)));
      tucked := 0;
    }
    pos := PlaceKids(m, cluster, i, cursorX, bandTop, pos);
    bandHeight := if cluster.height > bandHeight then cluster.height else bandHeight;
    cursorX := cursorX + cluster.width + CLUSTER_GAP_X;
    return Layout(cursorX, bandTop, bandHeight, host, tucked, pos);
  }

  /** Wraps a router's children beneath it. */
  method PlaceKids(m: Metrics, c: Cluster, i: nat, cursorX: int, bandTop: int, start: map<Card, Pos>)
    returns (pos: map<Card, Pos>)
    requires c.cols >= 1
    ensures pos == start + KidPositions(m, c, i, cursorX, bandTop, c.kids)
  {
    pos := start;
    assert KidPositions(m, c, i, cursorX, bandTop, 0) == map[];
    for index := 0 to c.kids
      invariant pos == start + KidPositions(m, c, i, cursorX, bandTop, index)
    {
      var row, col := index / c.cols, index % c.cols;
      var inThisRow := if c.cols < c.kids - row * c.cols then c.cols else c.kids - row * c.cols;
      var rowWidth := inThisRow * m.pitch;
      var startX := cursorX + HalfRound(c.width - rowWidth + m.pitch - NODE_WIDTH);
      var place := Pos(startX + col * m.pitch, bandTop + NODE_HEIGHT + PARENT_GAP + row * ROW_PITCH);
      assert place == KidPos(m, c, cursorX, bandTop, index);
      OneMoreKid(m, c, i, cursorX, bandTop, index);
      AddLast(start, KidPositions(m, c, i, cursorX, bandTop, index), ChildCard(i, index), place);
      pos := pos[ChildCard(i, index) := place];
    }
  }

  lemma OneMoreKid(m: Metrics, c: Cluster, i: nat, cursorX: int, bandTop: int, n: nat)
    requires c.cols >= 1
    ensures KidPositions(m, c, i, cursorX, bandTop, n + 1) ==
            KidPositions(m, c, i, cursorX, bandTop, n)[ChildCard(i, n) := KidPos(m, c, cursorX, bandTop, n)]
  {
  }

  lemma AddLast(a: map<Card, Pos>, b: map<Card, Pos>, card: Card, p: Pos)
    ensures (a + b)[card := p] == a + b[card := p]
  {
  }

  // ---------------------------------------------------------------- unresolved children and the whole stage

  /** One place of the centred grid. */
  function GridPos(m: Metrics, count: nat, columns: nat, top: int, index: nat): Pos
    requires columns >= 1
  {
    var row, column := index / columns, index % columns;
    var rowWidth := InRow(count, columns, row) * m.pitch;
    var centred := HalfRound(m.width - rowWidth + m.pitch - NODE_WIDTH);
    Pos((if m.margin > centred then m.margin else centred) + column * m.pitch, top + row * ROW_PITCH)
  }

  method TopologyGrid(m: Metrics, count: nat, columns: nat, top: int) returns (places: seq<Pos>)
    requires columns >= 1
    ensures |places| == count && forall k :: 0 <= k < count ==> places[k] == GridPos(m, count, columns, top, k)
  {
    places := [];
    for index := 0 to count
      invariant |places| == index && forall k :: 0 <= k < index ==> places[k] == GridPos(m, count, columns, top, k)
    {
      var row, column := index / columns, index % columns;
      var inThisRow := if columns < count - row * columns then columns else count - row * columns;
      var rowWidth := inThisRow * m.pitch;
      var centred := HalfRound(m.width - rowWidth + m.pitch - NODE_WIDTH);
      var start := if m.margin > centred then m.margin else centred;
      places := places + [Pos(start + column * m.pitch, top + row * ROW_PITCH)];
    }
  }

  lemma GridInside(m: Metrics, count: nat, top: int, index: nat)
    requires m.Valid() && index < count
    ensures var p := GridPos(m, count, m.Columns(), top, index);
            && m.margin <= p.x && p.x + NODE_WIDTH <= m.width
            && top <= p.y && p.y + NODE_HEIGHT <= top + (CeilDiv(count, m.Columns()) - 1) * ROW_PITCH + NODE_HEIGHT
  {
    var columns := m.Columns();
    RowColumn(count, columns, index);
    var row, column := index / columns, index % columns;
    var inRow := InRow(count, columns, row);
    Scale(inRow, columns, m.pitch);
    Scale(column, inRow - 1, m.pitch);
    Scale(0, column, m.pitch);
    assert (inRow - 1) * m.pitch == inRow * m.pitch - m.pitch;
  }

  lemma GridDisjoint(m: Metrics, count: nat, top: int, i: nat, j: nat)
    requires m.Valid() && i < j < count
    ensures Disjoint(GridPos(m, count, m.Columns(), top, i), GridPos(m, count, m.Columns(), top, j))
  {
    var columns := m.Columns();
    RowColumn(count, columns, i);
    RowColumn(count, columns, j);
    if i / columns == j / columns {
      Scale(i % columns + 1, j % columns, m.pitch);
      assert (i % columns + 1) * m.pitch == i % columns * m.pitch + m.pitch;
    }
  }

  /** The drawn map: a place for every card, and the stage that holds them. */
  datatype Stage = Stage(pos: map<Card, Pos>, width: int, height: int)

  /** Every card of the routers, their children and the unresolved children has a place. */
  ghost predicate Complete(stage: Stage, kids: seq<nat>, unresolved: nat) {
    forall card: Card :: card in stage.pos <==>
      match card
      case RouterCard(i) => i < |kids|
      case ChildCard(i, j) => i < |kids| && j < kids[i]
      case LooseCard(k) => k < unresolved
  }

  predicate InsideStage(stage: Stage, p: Pos) {
    0 <= p.x && p.x + NODE_WIDTH <= stage.width && 0 <= p.y && p.y + NODE_HEIGHT <= stage.height
  }

  /**
   The whole layout: for any routers with any numbers of children, any number of
   unresolved children and any measured width, every card has its place, no two
   overlap, each lies inside the stage, and children stand below their router.
   */
  method RenderTopology(measured: int, kids: seq<nat>, unresolved: nat)
    returns (stage: Stage, ghost clusters: seq<Cluster>, ghost turns: seq<Layout>)
    ensures stage.width == if measured > 320 then measured else 1100
    ensures LaidOut(MetricsFor(measured), kids, unresolved, clusters, turns, stage)
    ensures Complete(stage, kids, unresolved)
    ensures Apart(stage.pos)
    ensures forall card :: card in stage.pos ==> InsideStage(stage, stage.pos[card])
    ensures forall i: nat, j: nat {:trigger ChildCard(i, j)} :: i < |kids| && j < kids[i] ==>
              stage.pos[ChildCard(i, j)].y >= stage.pos[RouterCard(i)].y + NODE_HEIGHT + PARENT_GAP
  {
    var m := MetricsFor(measured);
    var columns := m.Columns();
    var maxCols := MaxClusterCols(m, kids);
    var cut := ClustersFor(m, maxCols, kids);
    clusters := cut;
    var s;
    s, turns := Pack(m, cut);
    ghost var guests :| Packed(m, s, clusters, |clusters|, guests);
    stage := AddUnresolved(m, s, unresolved);
    StageComplete(m, s, clusters, guests, stage, kids, unresolved);
    StageApart(m, s, clusters, guests, stage, unresolved);
    StageInside(m, s, clusters, guests, stage, unresolved);
  }

  /** The clusters are those of the children's numbers, packed turn by turn; the stage is the last turn and the grid. */
  ghost predicate LaidOut(m: Metrics, kids: seq<nat>, unresolved: nat, clusters: seq<Cluster>, turns: seq<Layout>,
                          stage: Stage)
    requires m.Valid()
  {
    && |clusters| == |kids|
    && (forall i :: 0 <= i < |kids| ==> clusters[i] == ClusterFor(m, MaxClusterCols(m, kids), kids[i]))
    && Turns(m, clusters, turns) && |turns| == |clusters| + 1
    && Assembled(m, turns[|clusters|], stage, unresolved)
  }

  function ClustersFor(m: Metrics, maxCols: nat, kids: seq<nat>): (clusters: seq<Cluster>)
    requires m.Valid() && 1 <= maxCols <= m.Columns()
    ensures |clusters| == |kids|
    ensures forall i :: 0 <= i < |kids| ==> GoodCluster(m, clusters[i]) && clusters[i].kids == kids[i]
    ensures forall i :: 0 <= i < |kids| ==> clusters[i] == ClusterFor(m, maxCols, kids[i])
  {
    if kids == [] then []
    else
      var last := |kids| - 1;
      ClusterIsGood(m, maxCols, kids[last]);
      ClustersFor(m, maxCols, kids[..last]) + [ClusterFor(m, maxCols, kids[last])]
  }

  /** Puts the children without a known parent in a grid below the clusters, and closes the stage. */
  method AddUnresolved(m: Metrics, s: Layout, unresolved: nat) returns (stage: Stage)
    requires m.Valid() && forall card :: card in s.pos ==> !card.LooseCard?
    ensures Assembled(m, s, stage, unresolved)
  {
    var contentBottom := s.bandTop + s.bandHeight;
    if unresolved == 0 {
      return Stage(s.pos, m.width, contentBottom + 68);
    }
    var unresolvedTop := contentBottom + 91;
    var places := TopologyGrid(m, unresolved, m.Columns(), unresolvedTop);
    var loose := map card: Card | card in (set k: nat | k < unresolved :: LooseCard(k)) :: places[card.k];
    contentBottom := unresolvedTop + (CeilDiv(unresolved, m.Columns()) - 1) * ROW_PITCH + NODE_HEIGHT;
    assert forall k: nat :: LooseCard(k) in loose <==> k < unresolved;
    return Stage(s.pos + loose, m.width, contentBottom + 68);
  }

  /** What the stage is made of. */
  ghost predicate Assembled(m: Metrics, s: Layout, stage: Stage, unresolved: nat)
    requires m.Valid()
  {
    var bottom := s.bandTop + s.bandHeight;
    && stage.width == m.width
    && stage.height == 68 + (if unresolved == 0 then bottom
                             else bottom + 91 + (CeilDiv(unresolved, m.Columns()) - 1) * ROW_PITCH + NODE_HEIGHT)
    && (forall card :: card in s.pos ==> card in stage.pos && stage.pos[card] == s.pos[card])
    && (forall k: nat :: k < unresolved ==>
          LooseCard(k) in stage.pos && stage.pos[LooseCard(k)] == GridPos(m, unresolved, m.Columns(), bottom + 91, k))
    && (forall card :: card in stage.pos ==> card in s.pos || (card.LooseCard? && card.k < unresolved))
  }

  /** A card of the grid lies inside the stage, below every cluster. */
  lemma LooseInside(m: Metrics, s: Layout, stage: Stage, unresolved: nat, k: nat)
    requires m.Valid() && Assembled(m, s, stage, unresolved) && k < unresolved && s.bandTop >= FIRST_BAND
             && s.bandHeight >= 0
    ensures var p := stage.pos[LooseCard(k)];
            InsideStage(stage, p) && p.y >= s.bandTop + s.bandHeight
  {
    GridInside(m, unresolved, s.bandTop + s.bandHeight + 91, k);
  }

  lemma StageInside(m: Metrics, s: Layout, clusters: seq<Cluster>, guests: seq<nat>, stage: Stage, unresolved: nat)
    requires m.Valid() && Packed(m, s, clusters, |clusters|, guests) && Assembled(m, s, stage, unresolved)
    ensures forall card :: card in stage.pos ==> InsideStage(stage, stage.pos[card])
  {
    CeilAtLeastOne(unresolved, m.Columns());
    forall card | card in stage.pos
      ensures InsideStage(stage, stage.pos[card])
    {
      if card in s.pos {
        assert Settled(m, s, s.pos[card]);
      } else {
        LooseInside(m, s, stage, unresolved, card.k);
      }
    }
  }

  /** A card of a cluster and one of the grid. */
  lemma SettledAboveLoose(m: Metrics, s: Layout, stage: Stage, unresolved: nat, a: Card, k: nat)
    requires m.Valid() && Assembled(m, s, stage, unresolved) && k < unresolved
    requires s.bandTop >= FIRST_BAND && s.bandHeight >= 0 && a in s.pos && Settled(m, s, s.pos[a])
    ensures Disjoint(stage.pos[a], stage.pos[LooseCard(k)]) && Disjoint(stage.pos[LooseCard(k)], stage.pos[a])
  {
    LooseInside(m, s, stage, unresolved, k);
  }

  /** Two cards of the grid. */
  lemma LooseApart(m: Metrics, s: Layout, stage: Stage, unresolved: nat, j: nat, k: nat)
    requires m.Valid() && Assembled(m, s, stage, unresolved) && j < k < unresolved
    ensures Disjoint(stage.pos[LooseCard(j)], stage.pos[LooseCard(k)])
  {
    GridDisjoint(m, unresolved, s.bandTop + s.bandHeight + 91, j, k);
  }

  lemma StageApart(m: Metrics, s: Layout, clusters: seq<Cluster>, guests: seq<nat>, stage: Stage, unresolved: nat)
    requires m.Valid() && Packed(m, s, clusters, |clusters|, guests) && Assembled(m, s, stage, unresolved)
    ensures Apart(stage.pos)
  {
    forall a, b | a in stage.pos && b in stage.pos && a != b
      ensures Disjoint(stage.pos[a], stage.pos[b])
    {
      if a in s.pos && b !in s.pos {
        SettledAboveLoose(m, s, stage, unresolved, a, b.k);
      } else if a !in s.pos && b in s.pos {
        SettledAboveLoose(m, s, stage, unresolved, b, a.k);
      } else if a !in s.pos && b !in s.pos {
        if a.k < b.k {
          LooseApart(m, s, stage, unresolved, a.k, b.k);
        } else {
          LooseApart(m, s, stage, unresolved, b.k, a.k);
        }
      }
    }
  }

  lemma StageComplete(m: Metrics, s: Layout, clusters: seq<Cluster>, guests: seq<nat>, stage: Stage, kids: seq<nat>,
                      unresolved: nat)
    requires m.Valid() && Packed(m, s, clusters, |clusters|, guests) && Assembled(m, s, stage, unresolved)
    requires |clusters| == |kids| && forall i :: 0 <= i < |kids| ==> clusters[i].kids == kids[i]
    ensures Complete(stage, kids, unresolved)
    ensures forall i: nat, j: nat {:trigger ChildCard(i, j)} :: i < |kids| && j < kids[i] ==>
              stage.pos[ChildCard(i, j)].y >= stage.pos[RouterCard(i)].y + NODE_HEIGHT + PARENT_GAP
  {
  }

  lemma CeilAtLeastOne(count: nat, columns: nat)
    requires columns >= 1
    ensures count > 0 ==> CeilDiv(count, columns) >= 1
  {
    if count > 0 {
      CeilCovers(count, columns, 0);
    }
  }
}
