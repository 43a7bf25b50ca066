/** The shape of the topology map in numbers (web/static/app.js): columns, clusters, bands and slots. */
module PackingShape {
  import opened Wrappers
  import opened Packing

  // ---------------------------------------------------------------- columns

  /** Every column that fits between the margins is used, and no narrower map is drawn than one card wide. */
  lemma ColumnsFit(measured: int)
    ensures var m := MetricsFor(measured);
            && m.width == (if measured > 320 then measured else 1100)
            && (if m.width < 408 then m.margin == 12 && m.pitch == 166 else m.margin == 24 && m.pitch == 180)
            && m.Columns() * m.pitch <= m.width - 2 * m.margin + m.pitch - 154 < (m.Columns() + 1) * m.pitch
  {
    var m := MetricsFor(measured);
    var room := m.width - 2 * m.margin + m.pitch - 154;
    Divided(room, m.pitch);
    assert room >= m.pitch;
  }

  lemma Divided(n: nat, d: nat)
    requires d > 0
    ensures n / d * d <= n < (n / d + 1) * d && (n >= d ==> n / d >= 1)
  {
    assert n == n / d * d + n % d;
    assert (n / d + 1) * d == n / d * d + d;
  }

  /** `c` columns for `n` children: one row of up to four, and the least square that holds more. */
  predicate IsNatural(c: nat, n: nat) {
    if n <= 1 then c == 1
    else if n <= 4 then c == n
    else n <= c * c && (c - 1) * (c - 1) < n
  }

  lemma NaturalIsLeast(n: nat)
    ensures IsNatural(NaturalCols(n), n)
  {
    if n > 4 {
      var c := CeilSqrt(n);
      assert c * c >= n;
      assert c > 0;
    }
  }

  /** The clusters side by side, each as wide as it likes to be, with a gap after every one. */
  ghost predicate IsNaturalWidth(m: Metrics, kids: seq<nat>, cols: seq<nat>, width: int) {
    && |cols| == |kids| && (forall i :: 0 <= i < |kids| ==> IsNatural(cols[i], kids[i]))
    && width == SumOf(cols) * m.pitch + 40 * |kids|
  }

  function SumOf(cols: seq<nat>): nat { if cols == [] then 0 else SumOf(cols[..|cols| - 1]) + cols[|cols| - 1] }

  lemma {:induction false} NaturalWidthIs(m: Metrics, kids: seq<nat>) returns (cols: seq<nat>)
    ensures IsNaturalWidth(m, kids, cols, NaturalWidth(m, kids))
  {
    if kids == [] {
      return [];
    }
    var front, last := kids[..|kids| - 1], kids[|kids| - 1];
    var before := NaturalWidthIs(m, front);
    NaturalIsLeast(last);
    cols := before + [NaturalCols(last)];
    assert cols[..|before|] == before;
    Distribute(SumOf(before), NaturalCols(last), m.pitch);
    assert forall i :: 0 <= i < |before| ==> cols[i] == before[i] && kids[i] == front[i];
  }

  lemma Distribute(a: int, b: int, p: int)
    ensures (a + b) * p == a * p + b * p
  {
  }

  /**
   How many columns a cluster may have: all of them when there are fewer than three or all clusters
   fit side by side as they are, and otherwise so few that two such clusters fit into a band.
   */
  lemma MaxColumns(m: Metrics, kids: seq<nat>, cols: seq<nat>, width: int)
    requires m.Valid() && IsNaturalWidth(m, kids, cols, width) && width == NaturalWidth(m, kids)
    ensures var most := MaxClusterCols(m, kids);
            if width - 40 <= m.width - 2 * m.margin || m.Columns() < 3 then most == m.Columns()
            else
              && 2 * most + 1 <= m.Columns() <= 2 * most + 2
              && 2 * (most * m.pitch) + 40 <= m.width - 2 * m.margin
  {
    var most, columns := MaxClusterCols(m, kids), m.Columns();
    if !(width - 40 <= m.width - 2 * m.margin || columns < 3) {
      assert (2 * most + 1) * m.pitch <= columns * m.pitch by {
        Scale(2 * most + 1, columns, m.pitch);
      }
      assert (2 * most + 1) * m.pitch == 2 * (most * m.pitch) + m.pitch;
    }
  }

  /** A cluster: its columns, the rows they need, and its size in pixels. */
  predicate IsShape(m: Metrics, most: nat, kids: nat, natural: nat, c: Cluster) {
    && c.kids == kids && IsNatural(natural, kids)
    && c.cols == (if most < natural then most else natural)
    && (c.rows - 1) * c.cols < kids <= c.rows * c.cols
    && c.width == c.cols * m.pitch
    && c.height == (if c.rows == 0 then 96 else 96 + 62 + (c.rows - 1) * 144 + 96)
  }

  lemma ClusterShape(m: Metrics, most: nat, kids: nat)
    requires m.Valid() && 1 <= most <= m.Columns()
    ensures IsShape(m, most, kids, NaturalCols(kids), ClusterFor(m, most, kids))
  {
    var c := ClusterFor(m, most, kids);
    NaturalIsLeast(kids);
    ClusterIsGood(m, most, kids);
    Ceiling(kids, c.cols);
  }

  lemma Ceiling(a: nat, b: nat)
    requires b > 0
    ensures (CeilDiv(a, b) - 1) * b < a <= CeilDiv(a, b) * b || (a == 0 && CeilDiv(a, b) == 0)
    ensures a == 0 ==> (CeilDiv(a, b) - 1) * b < 0
  {
    var k := CeilDiv(a, b);
    assert a + b - 1 == k * b + (a + b - 1) % b;
    assert (k - 1) * b == k * b - b;
  }

  // ---------------------------------------------------------------- bands

  /** There is no room beside the clusters already in the band. */
  predicate NoRoom(m: Metrics, s: Layout, c: Cluster) {
    s.cursorX > m.margin && s.cursorX + c.width > m.width - m.margin
  }

  /** A lone router, and a free slot in the top row of the band's last cluster with children. */
  predicate HasSlot(s: Layout, c: Cluster) {
    match s.host
    case None => false
    case Some(h) => c.kids == 0 && s.tucked + 1 < h.cols
  }

  /** A lone router without room takes the next slot of the host's row, and the band stays as it is. */
  lemma LoneRouterIsTucked(m: Metrics, s: Layout, i: nat, c: Cluster)
    requires c.cols >= 1 && NoRoom(m, s, c) && HasSlot(s, c) && RouterCard(s.host.value.router) in s.pos
    requires s.host.value.router != i
    requires s.tucked > 0 ==> s.pos[RouterCard(s.host.value.router)].x == s.host.value.left
    ensures var r := PackOne(m, s, i, c);
            && r.cursorX == s.cursorX && r.bandTop == s.bandTop && r.bandHeight == s.bandHeight && r.host == s.host
            && r.tucked == s.tucked + 1
            && RouterCard(i) in r.pos
            && r.pos[RouterCard(i)] == Pos(s.host.value.left + (s.tucked + 1) * m.pitch, s.bandTop)
            && r.pos[RouterCard(s.host.value.router)].x == s.host.value.left
  {
  }

  /** Any other cluster without room opens a band below the tallest of the last one, at the left margin. */
  lemma BandIsOpened(m: Metrics, s: Layout, i: nat, c: Cluster)
    requires c.cols >= 1 && NoRoom(m, s, c) && !HasSlot(s, c)
    requires s.host.Some? ==> RouterCard(s.host.value.router) in s.pos
    ensures var r := PackOne(m, s, i, c);
            && r.bandTop == s.bandTop + s.bandHeight + 62 && r.bandHeight == (if c.height > 0 then c.height else 0)
            && Stands(m, r, i, c, m.margin)
            && (c.kids == 0 ==> r.host == None && r.tucked == 0)
  {
    PlaceStands(m, NewBand(m, s), i, c);
  }

  /** A cluster with room is placed at the cursor. */
  lemma ClusterIsPlaced(m: Metrics, s: Layout, i: nat, c: Cluster)
    requires c.cols >= 1 && !NoRoom(m, s, c)
    requires s.host.Some? ==> RouterCard(s.host.value.router) in s.pos
    ensures var r := PackOne(m, s, i, c);
            && r.bandTop == s.bandTop
            && r.bandHeight == (if c.height > s.bandHeight then c.height else s.bandHeight)
            && Stands(m, r, i, c, s.cursorX)
            && (c.kids == 0 ==> r.host == s.host && r.tucked == s.tucked)
  {
    PlaceStands(m, s, i, c);
  }

  /** Half of a difference, rounded up: twice it is the difference or one more. */
  predicate IsHalf(half: int, difference: int) { difference <= 2 * half <= difference + 1 }

  /**
   Placed from `left` on: the router in the middle over its cluster, and the children in rows of
   `cols`, the last row centred, 62 below the router and 144 apart.
   */
  ghost predicate Stands(m: Metrics, r: Layout, i: nat, c: Cluster, left: int)
    requires c.cols >= 1
  {
    && r.cursorX == left + c.width + 40
    && (c.kids > 0 ==> r.tucked == 0 && r.host.Some? && r.host.value.router == i && r.host.value.cols == c.cols
                       && IsHalf(r.host.value.left - left, m.pitch - 154))
    && RouterCard(i) in r.pos && r.pos[RouterCard(i)].y == r.bandTop
    && IsHalf(r.pos[RouterCard(i)].x - left, c.width - 154)
    && forall j: nat :: j < c.kids ==>
         ChildCard(i, j) in r.pos && KidStands(m, c, left, r.bandTop, j, r.pos[ChildCard(i, j)])
  }

  predicate KidStands(m: Metrics, c: Cluster, left: int, top: int, j: nat, p: Pos)
    requires c.cols >= 1
  {
    var row, col := j / c.cols, j % c.cols;
    var inRow := if (row + 1) * c.cols <= c.kids then c.cols else c.kids - row * c.cols;
    && p.y == top + 96 + 62 + row * 144
    && IsHalf(p.x - left - col * m.pitch, c.width - inRow * m.pitch + m.pitch - 154)
  }

  lemma KidPosStands(m: Metrics, c: Cluster, left: int, top: int, j: nat)
    requires c.cols >= 1 && j < c.kids
    ensures KidStands(m, c, left, top, j, KidPos(m, c, left, top, j))
  {
    Distribute(j / c.cols, 1, c.cols);
  }

  lemma PlaceStands(m: Metrics, s: Layout, i: nat, c: Cluster)
    requires c.cols >= 1
    ensures Stands(m, Place(m, s, i, c), i, c, s.cursorX)
  {
    var r := Place(m, s, i, c);
    forall j: nat | j < c.kids
      ensures ChildCard(i, j) in r.pos && KidStands(m, c, s.cursorX, s.bandTop, j, r.pos[ChildCard(i, j)])
    {
      KidPosStands(m, c, s.cursorX, s.bandTop, j);
      assert ChildCard(i, j) in KidPositions(m, c, i, s.cursorX, s.bandTop, c.kids);
    }
    assert RouterCard(i) !in KidPositions(m, c, i, s.cursorX, s.bandTop, c.kids);
  }

  /** The grid of unresolved children: rows of `columns`, each centred on the map but not past the margin, 144 apart. */
  lemma GridPlace(m: Metrics, count: nat, columns: nat, top: int, index: nat)
    requires columns >= 1 && index < count
    ensures var p := GridPos(m, count, columns, top, index);
            var row, col := index / columns, index % columns;
            var inRow := if (row + 1) * columns <= count then columns else count - row * columns;
            && p.y == top + row * 144
            && p.x - col * m.pitch >= m.margin
            && (p.x - col * m.pitch == m.margin
                || IsHalf(p.x - col * m.pitch, m.width - inRow * m.pitch + m.pitch - 154))
  {
  }
}
