/** What every point of a reduced series says of its group of samples (internal/mcpserver/server.go). */
module SignalPoints {
  import opened Wrappers
  import opened SignalSpec
  import opened SignalHistory
  import opened SignalSeries
  import opened SignalReadout

  // Sums over a group, sample by sample. A sample with a mean stands for its readings, and
  // for one at least.

  function Readings(s: Sample): nat { if s.rssi.None? then 0 else if s.samples > 1 then s.samples else 1 }

  function ReadingsIn(group: seq<Sample>): nat {
    if group == [] then 0 else ReadingsIn(group[..|group| - 1]) + Readings(group[|group| - 1])
  }

  function MeansIn(group: seq<Sample>): int {
    if group == [] then 0
    else
      var s := group[|group| - 1];
      MeansIn(group[..|group| - 1]) + if s.rssi.Some? then s.rssi.value * Readings(s) else 0
  }

  function PresentIn(group: seq<Sample>): nat {
    if group == [] then 0 else PresentIn(group[..|group| - 1]) + if group[|group| - 1].present then 1 else 0
  }

  /** `v` is the least among the least readings of the samples with a mean; likewise the greatest. */
  predicate IsLow(v: int, group: seq<Sample>) {
    && (exists s :: s in group && s.rssi.Some? && s.minRssi == Some(v))
    && (forall s :: s in group && s.rssi.Some? ==> s.minRssi.Some? && v <= s.minRssi.value)
  }

  predicate IsHigh(v: int, group: seq<Sample>) {
    && (exists s :: s in group && s.rssi.Some? && s.maxRssi == Some(v))
    && (forall s :: s in group && s.rssi.Some? ==> s.maxRssi.Some? && v >= s.maxRssi.value)
  }

  /** `r` is `total` over `count` less a half, its fraction dropped towards zero; multiplied out. */
  predicate IsHalfLess(r: int, total: int, count: nat) {
    if 2 * total >= count then 2 * (r * count) <= 2 * total - count < 2 * (r * count) + 2 * count
    else 2 * (r * count) - 2 * count < 2 * total - count <= 2 * (r * count)
  }

  ghost predicate SaysOfGroup(p: Point, group: seq<Sample>)
    requires group != []
  {
    && p.at == group[0].at && IsPercent(p.presentPercent, PresentIn(group), |group|)
    && if ReadingsIn(group) == 0 then p.rssi == p.minRssi == p.maxRssi == None
       else
         && p.rssi.Some? && IsHalfLess(p.rssi.value, MeansIn(group), ReadingsIn(group))
         && p.minRssi.Some? && IsLow(p.minRssi.value, group)
         && p.maxRssi.Some? && IsHigh(p.maxRssi.value, group)
  }

  lemma {:induction false} GatheredSums(group: seq<Sample>)
    requires Complete(group)
    ensures var r := Gathered(group);
            r.total == MeansIn(group) && r.count == ReadingsIn(group) && r.present == PresentIn(group)
  {
    if group != [] {
      GatheredSums(group[..|group| - 1]);
    }
  }

  lemma {:induction false} GatheredExtremes(group: seq<Sample>)
    requires Complete(group)
    ensures var r := Gathered(group);
            && (r.count == 0 ==> r.low == r.high == None && forall s :: s in group ==> s.rssi.None?)
            && (r.count > 0 ==> r.low.Some? && IsLow(r.low.value, group) && r.high.Some? && IsHigh(r.high.value, group))
  {
    if group != [] {
      var front, s := group[..|group| - 1], group[|group| - 1];
      GatheredExtremes(front);
      assert group == front + [s];
      assert forall d :: d in group <==> d in front || d == s;
    }
  }

  lemma HalfLessBounds(x: real)
    ensures var r := Truncate(x - 0.5) as real;
            if x < 0.5 then r - 1.0 < x - 0.5 <= r else r <= x - 0.5 < r + 1.0
  {
  }

  lemma MeanIsHalfLess(total: int, count: nat)
    requires count > 0
    ensures IsHalfLess(GroupMean(total, count), total, count)
  {
    var q, r := Quotient(total, count), GroupMean(total, count);
    HalfLessBounds(q);
    RealProduct(r, count);
    RealHalfLess(q, r as real, count as real, total as real, (r * count) as real);
    HalfLessInIntegers(r, total, count);
  }

  lemma RealHalfLess(q: real, r: real, c: real, total: real, rc: real)
    requires c > 0.0 && q == total / c && r * c == rc
    requires if q < 0.5 then r - 1.0 < q - 0.5 <= r else r <= q - 0.5 < r + 1.0
    ensures if total < 0.5 * c then rc - c < total - 0.5 * c <= rc else rc <= total - 0.5 * c < rc + c
  {
    assert q * c == total;
    if q < 0.5 {
      Below(q, 0.0, 0.5, c, total, 0.0);
      Above(q, r, 0.5, c, total, rc);
      NotAbove(q, r, 0.5, c, total, rc);
    } else {
      NotAbove(0.0, q, -0.5, c, 0.0, total);
      NotAbove(r, q, -0.5, c, rc, total);
      Below(q, r, 1.5, c, total, rc);
    }
  }

  lemma HalfLessInIntegers(r: int, total: int, count: nat)
    requires var rc, t, c := (r * count) as real, total as real, count as real;
             if t < 0.5 * c then rc - c < t - 0.5 * c <= rc else rc <= t - 0.5 * c < rc + c
    ensures IsHalfLess(r, total, count)
  {
    var rc := r * count;
    assert 2 * total >= count <==> total as real >= 0.5 * (count as real);
  }

  lemma PointSays(group: seq<Sample>)
    requires group != [] && Complete(group)
    ensures SaysOfGroup(PointOf(group), group)
  {
    var r := Gathered(group);
    GatheredSums(group);
    GatheredExtremes(group);
    PercentOf(r.present, |group|);
    if r.count > 0 {
      MeanIsHalfLess(r.total, r.count);
    }
  }

  /** The groups have `size` samples each, but for the last, which has one at least. */
  predicate Sizes(groups: seq<seq<Sample>>, size: nat) {
    forall i :: 0 <= i < |groups| ==> 0 < |groups[i]| <= size && (i < |groups| - 1 ==> |groups[i]| == size)
  }

  lemma {:induction false} GroupsHaveSizes(samples: seq<Sample>, size: nat)
    requires size > 0
    ensures Sizes(Groups(samples, size), size)
  {
    if |samples| > size {
      GroupsHaveSizes(samples[size..], size);
    }
  }

  lemma {:induction false} SeriesAt(groups: seq<seq<Sample>>, i: nat)
    requires GoodGroups(groups) && i < |groups|
    ensures Series(groups)[i] == PointOf(groups[i])
  {
    if i > 0 {
      SeriesAt(groups[1..], i - 1);
    }
  }

  /** The size of a group is the least with which no more than `points` groups cover all samples. */
  lemma SizeIsLeast(n: nat, points: nat)
    requires points > 0
    ensures var size := GroupSize(n, points);
            1 <= size && n <= size * points && (size > 1 ==> (size - 1) * points < n)
  {
    SizeSuffices(n, points);
    var size := (n + points - 1) / points;
    DividedBack(n + points - 1, points);
    OneLess(size, points);
  }

  lemma DividedBack(n: nat, m: nat)
    requires m > 0
    ensures n / m * m <= n < n / m * m + m
  {
    assert n == n / m * m + n % m;
  }

  lemma OneLess(size: int, points: int)
    ensures (size - 1) * points == size * points - points
  {
  }

  /**
   From the samples to the series: cut into groups of one size, which is the least that
   will do, each point says of its group its first minute, the share of its minutes with a
   reading, its least and greatest reading, and its weighted mean as the code rounds it.
   */
  lemma PointsFromSamples(samples: seq<Sample>, points: nat, i: nat)
    requires Complete(samples) && points > 0
    requires i < |Groups(samples, GroupSize(|samples|, points))|
    ensures var size := GroupSize(|samples|, points);
            var groups := Groups(samples, size);
            && Concat(groups) == samples && Sizes(groups, size)
            && |samples| <= size * points && (size > 1 ==> (size - 1) * points < |samples|)
            && GoodGroups(groups) && SaysOfGroup(Series(groups)[i], groups[i])
  {
    var size := GroupSize(|samples|, points);
    GroupsPartition(samples, size);
    GroupsHaveSizes(samples, size);
    GroupsAreGood(samples, size);
    SizeIsLeast(|samples|, points);
    SeriesAt(Groups(samples, size), i);
    PointSays(Groups(samples, size)[i]);
  }
}
