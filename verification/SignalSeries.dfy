/** The reduction of a history to a few points, `reduceSignal` (internal/mcpserver/server.go). */
module SignalSeries {
  import opened Wrappers
  import opened SignalSpec
  import opened SignalHistory

  /** A sample with a mean also has its extremes; the reduction dereferences them without looking. */
  predicate Complete(samples: seq<Sample>) {
    forall i :: 0 <= i < |samples| && samples[i].rssi.Some? ==> samples[i].minRssi.Some? && samples[i].maxRssi.Some?
  }

  function Max(a: int, b: int): int { if a > b then a else b }
  function Min(a: int, b: int): int { if a < b then a else b }

  function Weight(s: Sample): nat { Max(s.samples, 1) }

  /** What the loop over one group has gathered. */
  function Gathered(group: seq<Sample>): (r: Tally)
    requires Complete(group)
    ensures r.present <= |group|
  {
    if group == [] then Tally(0, 0, 0, None, None)
    else
      var s, before := group[|group| - 1], Gathered(group[..|group| - 1]);
      var seen := before.(present := before.present + if s.present then 1 else 0);
      if s.rssi.None? then seen
      else seen.(total := seen.total + s.rssi.value * Weight(s), count := seen.count + Weight(s),
                 low := Lesser(seen.low, s.minRssi), high := Greater(seen.high, s.maxRssi))
  }

  /** The mean of a group as the code takes it: half subtracted, then the fraction dropped. */
  function GroupMean(total: int, count: nat): int
    requires count > 0
  {
    Truncate(Quotient(total, count) - 0.5)
  }

  function PointOf(group: seq<Sample>): Point
    requires group != [] && Complete(group)
  {
    var r := Gathered(group);
    Point(group[0].at, if r.count > 0 then Some(GroupMean(r.total, r.count)) else None, r.low, r.high,
          r.present * 100 / |group|)
  }

  /** The samples cut into groups of `size`, the last one possibly shorter. */
  function Groups(samples: seq<Sample>, size: nat): seq<seq<Sample>>
    requires size > 0
  {
    if samples == [] then []
    else if |samples| <= size then [samples]
    else [samples[..size]] + Groups(samples[size..], size)
  }

  function Series(groups: seq<seq<Sample>>): (points: seq<Point>)
    requires GoodGroups(groups)
    ensures |points| == |groups|
  {
    if groups == [] then [] else [PointOf(groups[0])] + Series(groups[1..])
  }

  function GroupSize(n: nat, points: nat): (size: nat)
    requires points > 0
    ensures size > 0
  {
    Max((n + points - 1) / points, 1)
  }

  method ReduceSignal(history: History, points: nat) returns (stepSeconds: nat, series: seq<Point>)
    requires points > 0 && Complete(history.samples)
    ensures var size := GroupSize(|history.samples|, points);
            && stepSeconds == size * BUCKET_SECONDS
            && GoodGroups(Groups(history.samples, size))
            && series == Series(Groups(history.samples, size))
  {
    var size := (|history.samples| + points - 1) / points;
    if size < 1 {
      size := 1;
    }
    series := Reduce(history.samples, size);
    return size * BUCKET_SECONDS, series;
  }

  /** The loop over the groups. */
  method Reduce(samples: seq<Sample>, size: nat) returns (series: seq<Point>)
    requires size > 0 && Complete(samples)
    ensures GoodGroups(Groups(samples, size)) && series == Series(Groups(samples, size))
  {
    series := [];
    var start := 0;
    assert From(samples, 0) == samples;
    GroupsAreGood(samples, size);
    ghost var all := Series(Groups(samples, size));
    while start < |samples|
      invariant 0 <= start
      invariant Complete(From(samples, start)) && GoodGroups(Groups(From(samples, start), size))
      invariant all == series + Series(Groups(From(samples, start), size))
      decreases |samples| - start
    {
      var end := Min(start + size, |samples|);
      var group := samples[start..end];
      GroupsStep(samples, start, size);
      var point := OnePoint(group);
      Associate(series, [point], Series(Groups(From(samples, start + size), size)));
      series := series + [point];
      start := start + size;
    }
  }

  lemma Associate(a: seq<Point>, b: seq<Point>, c: seq<Point>)
    ensures (a + b) + c == a + (b + c)
  {
  }

  /** The samples from an index on; none when it is past the end. */
  function From(samples: seq<Sample>, start: nat): seq<Sample> {
    if start < |samples| then samples[start..] else []
  }

  lemma GroupsStep(samples: seq<Sample>, start: nat, size: nat)
    requires size > 0 && start < |samples| && Complete(From(samples, start))
    ensures var group := samples[start..Min(start + size, |samples|)];
            var rest := From(samples, start + size);
            && group != [] && Complete(group) && Complete(rest)
            && GoodGroups(Groups(rest, size)) && GoodGroups(Groups(From(samples, start), size))
            && Series(Groups(From(samples, start), size)) == [PointOf(group)] + Series(Groups(rest, size))
  {
    var left, rest := From(samples, start), From(samples, start + size);
    var group := samples[start..Min(start + size, |samples|)];
    assert group == left[..Min(size, |left|)];
    assert rest == if |left| > size then left[size..] else [];
    GroupsAreGood(left, size);
    GroupsAreGood(rest, size);
    if |left| <= size {
      assert group == left && [group] + [] == [group];
    }
    assert Groups(left, size) == [group] + Groups(rest, size);
    assert ([group] + Groups(rest, size))[1..] == Groups(rest, size);
  }

  method OnePoint(group: seq<Sample>) returns (point: Point)
    requires group != [] && Complete(group)
    ensures point == PointOf(group)
  {
    point := Point(group[0].at, None, None, None, 0);
    var total, count: nat, present := 0, 0, 0;
    for i := 0 to |group|
      invariant Tally(total, count, present, point.minRssi, point.maxRssi) == Gathered(group[..i])
      invariant point.at == group[0].at && point.rssi == None
    {
      assert group[..i + 1][..i] == group[..i];
      var sample := group[i];
      if sample.present {
        present := present + 1;
      }
      if sample.rssi.None? {
        continue;
      }
      total := total + sample.rssi.value * Max(sample.samples, 1);
      count := count + Max(sample.samples, 1);
      if point.minRssi.None? || sample.minRssi.value < point.minRssi.value {
        point := point.(minRssi := sample.minRssi);
      }
      if point.maxRssi.None? || sample.maxRssi.value > point.maxRssi.value {
        point := point.(maxRssi := sample.maxRssi);
      }
    }
    assert group[..|group|] == group;
    if count > 0 {
      point := point.(rssi := Some(GroupMean(total, count)));
    }
    point := point.(presentPercent := present * 100 / |group|);
  }

  predicate GoodGroups(groups: seq<seq<Sample>>) {
    forall i :: 0 <= i < |groups| ==> groups[i] != [] && Complete(groups[i])
  }

  lemma {:induction false} GroupsAreGood(samples: seq<Sample>, size: nat)
    requires size > 0 && Complete(samples)
    ensures GoodGroups(Groups(samples, size))
  {
    if |samples| > size {
      GroupsAreGood(samples[size..], size);
    }
  }

  // ---------------------------------------------------------------- what the reduction keeps

  function Concat(groups: seq<seq<Sample>>): seq<Sample> {
    if groups == [] then [] else groups[0] + Concat(groups[1..])
  }

  /** The groups are the samples, cut and nothing else. */
  lemma {:induction false} GroupsPartition(samples: seq<Sample>, size: nat)
    requires size > 0
    ensures Concat(Groups(samples, size)) == samples
  {
    if |samples| > size {
      GroupsPartition(samples[size..], size);
      var rest := Groups(samples[size..], size);
      assert ([samples[..size]] + rest)[1..] == rest;
    } else if samples != [] {
      assert [samples][1..] == [];
    }
  }

  /** There are never more groups than points asked for. */
  lemma {:induction false} AtMostPoints(samples: seq<Sample>, size: nat, points: nat)
    requires size > 0 && |samples| <= size * points
    ensures |Groups(samples, size)| <= points
    decreases points
  {
    if |samples| > size {
      assert |samples[size..]| <= size * (points - 1);
      AtMostPoints(samples[size..], size, points - 1);
    } else if samples != [] {
      assert points > 0;
    }
  }

  lemma SizeSuffices(n: nat, points: nat)
    requires points > 0
    ensures n <= GroupSize(n, points) * points
  {
    var size := (n + points - 1) / points;
    assert n + points - 1 == size * points + (n + points - 1) % points;
    assert size * points <= GroupSize(n, points) * points by {
      if size < 1 {
        assert size == 0;
      }
    }
  }

  /** Least and greatest over all points of a series. */
  function LowOf(points: seq<Point>): Option<int> {
    if points == [] then None else Lesser(points[0].minRssi, LowOf(points[1..]))
  }

  function HighOf(points: seq<Point>): Option<int> {
    if points == [] then None else Greater(points[0].maxRssi, HighOf(points[1..]))
  }

  lemma {:induction false} GatheredConcat(a: seq<Sample>, b: seq<Sample>)
    requires Complete(a) && Complete(b)
    ensures Complete(a + b)
    ensures Gathered(a + b).low == Lesser(Gathered(a).low, Gathered(b).low)
    ensures Gathered(a + b).high == Greater(Gathered(a).high, Gathered(b).high)
  {
    if b == [] {
      assert a + b == a;
    } else {
      var front := b[..|b| - 1];
      GatheredConcat(a, front);
      assert (a + b)[..|a + b| - 1] == a + front;
    }
  }

  lemma {:induction false} SeriesExtremes(groups: seq<seq<Sample>>)
    requires GoodGroups(groups)
    ensures Complete(Concat(groups))
    ensures LowOf(Series(groups)) == Gathered(Concat(groups)).low
    ensures HighOf(Series(groups)) == Gathered(Concat(groups)).high
  {
    if groups != [] {
      SeriesExtremes(groups[1..]);
      GatheredConcat(groups[0], Concat(groups[1..]));
    }
  }

  lemma {:induction false} HistorySamples(t: seq<Bucket>)
    ensures Complete(Samples(t))
    ensures Gathered(Samples(t)).low == TallyOf(t).low && Gathered(Samples(t)).high == TallyOf(t).high
    ensures TallyOf(t).low.Some? == TallyOf(t).high.Some? == (TallyOf(t).count > 0)
  {
    if t != [] {
      HistorySamples(t[..|t| - 1]);
      assert Samples(t)[..|t| - 1] == Samples(t[..|t| - 1]);
    }
  }

  /**
   A dip survives end to end: reduced to any number of points, the series of a stored
   device has at most that many, cuts its history into consecutive groups, and its
   least and greatest values are the least and greatest RSSI the log accepted in the
   last 120 minutes.
   */
  lemma DipSurvives(trails: Trails, log: seq<Entry>, at: int, key: string, points: nat)
    requires Refines(trails, log, at) && key in trails && points > 0
    ensures var samples := Samples(trails[key]);
            var groups := Groups(samples, GroupSize(|samples|, points));
            var rssis := WindowRssis(log, key, at - SIGNAL_BUCKETS + 1);
            && GoodGroups(groups) && Concat(groups) == samples && |groups| <= points
            && if rssis == [] then LowOf(Series(groups)) == HighOf(Series(groups)) == None
               else
                 && LowOf(Series(groups)).Some? && IsLeast(LowOf(Series(groups)).value, rssis)
                 && HighOf(Series(groups)).Some? && IsGreatest(HighOf(Series(groups)).value, rssis)
  {
    var t := trails[key];
    var samples := Samples(t);
    var size := GroupSize(|samples|, points);
    HistorySamples(t);
    GroupsAreGood(samples, size);
    GroupsPartition(samples, size);
    SizeSuffices(|samples|, points);
    AtMostPoints(samples, size, points);
    SeriesExtremes(Groups(samples, size));
    HistoryIsTheWindow(trails, log, at, key);
  }

  // ---------------------------------------------------------------- the group mean

  /** Samples whose mean lies between their own extremes, as History's do. */
  predicate Ordered(group: seq<Sample>) {
    forall s :: s in group && s.rssi.Some? ==>
      s.minRssi.Some? && s.maxRssi.Some? && s.minRssi.value <= s.rssi.value <= s.maxRssi.value
  }

  lemma {:induction false} GatheredBetween(group: seq<Sample>)
    requires Ordered(group)
    ensures Complete(group)
    ensures var r := Gathered(group);
            && (r.count > 0 <==> r.low.Some?) && (r.count > 0 <==> r.high.Some?)
            && (r.count > 0 ==> r.low.value * r.count <= r.total <= r.high.value * r.count)
            && (r.count == 0 ==> r.total == 0)
  {
    if group != [] {
      var front, s := group[..|group| - 1], group[|group| - 1];
      assert s in group && forall f :: f in front ==> f in group;
      GatheredBetween(front);
      var before := Gathered(front);
      if s.rssi.Some? {
        var n, lo, hi := Weight(s), Lesser(before.low, s.minRssi).value, Greater(before.high, s.maxRssi).value;
        if before.count > 0 {
          Loosen(before.total, before.count, before.low.value, before.high.value, lo, hi);
        }
        Accumulate(before.total, before.count, s.rssi.value, n, lo, hi);
      }
    }
  }

  lemma Loosen(total: int, n: nat, lo: int, hi: int, lower: int, higher: int)
    requires lo * n <= total <= hi * n && lower <= lo && hi <= higher
    ensures lower * n <= total <= higher * n
  {
    Monotone(lower, lo, n);
    Monotone(hi, higher, n);
  }

  lemma Accumulate(total: int, count: nat, v: int, n: nat, lo: int, hi: int)
    requires lo * count <= total <= hi * count && lo <= v <= hi
    ensures lo * (count + n) <= total + v * n <= hi * (count + n)
  {
    Monotone(lo, v, n);
    Monotone(v, hi, n);
    assert lo * (count + n) == lo * count + lo * n;
    assert hi * (count + n) == hi * count + hi * n;
  }

  lemma Monotone(a: int, b: int, n: nat)
    requires a <= b
    ensures a * n <= b * n
  {
  }

  /**
   The reduction's mean is never above the group's greatest reading. It is below the
   least one exactly when that is positive and the exact mean is less than half above
   it: subtracting a half suits negative readings only.
   */
  lemma GroupMeanBetween(group: seq<Sample>)
    requires Ordered(group)
    ensures Complete(group)
    ensures var r := Gathered(group);
            r.count > 0 ==>
              && r.low.Some? && r.high.Some?
              && GroupMean(r.total, r.count) <= r.high.value
              && (r.low.value <= GroupMean(r.total, r.count) <==>
                  r.low.value <= 0 || 2 * r.total >= (2 * r.low.value + 1) * r.count)
  {
    GatheredBetween(group);
    var r := Gathered(group);
    if r.count > 0 {
      var q := Quotient(r.total, r.count);
      QuotientBetween(r.total, r.count, r.low.value, r.high.value);
      HalfAbove(r.total, r.count, r.low.value);
      TruncateHalf(q, r.low.value, r.high.value);
    }
  }

  /** One reading of +5 dBm, recorded and reduced: its point has the mean 4, below its own least value 5. */
  lemma PositiveReadingFallsBelow()
    ensures var d := Device("01", None, Some(5));
            var run := Run([Call([d], 0)]);
            && "01" in run
            && var groups := Groups(Samples(run["01"]), GroupSize(|Samples(run["01"])|, 1));
               && GoodGroups(groups) && |groups| == 1
               && Series(groups)[0].rssi == Some(4) && Series(groups)[0].minRssi == Some(5)
  {
    FiveRecorded();
    FiveSampled();
    FiveReduced();
  }

  const FIVE := Bucket(0, 1, 5, 5, 5, 0, true)
  const FIVE_SAMPLE := Sample(0, true, 1, Some(5), Some(5), Some(5), None)

  lemma FiveRecorded()
    ensures Run([Call([Device("01", None, Some(5))], 0)]) == map["01" := [FIVE]]
  {
    var d := Device("01", None, Some(5));
    assert Key(d) == "01";
    RunOne([], Call([d], 0));
    assert [] + [Call([d], 0)] == [Call([d], 0)];
    RecordOne(map[], d, 0);
    assert Run([]) == map[] && Minute(0) == 0;
    assert Added([Blank(0)], d) == [FIVE];
  }

  lemma FiveSampled()
    ensures Samples([FIVE]) == [FIVE_SAMPLE]
  {
    assert Quotient(5, 1) == 5.0 && RoundToInt(5.0) == 5;
    assert [FIVE][..0] == [] && SampleOf(FIVE) == FIVE_SAMPLE;
  }

  lemma FiveReduced()
    ensures GroupSize(1, 1) == 1 && Groups([FIVE_SAMPLE], 1) == [[FIVE_SAMPLE]] && GoodGroups([[FIVE_SAMPLE]])
    ensures Series([[FIVE_SAMPLE]])[0].rssi == Some(4) && Series([[FIVE_SAMPLE]])[0].minRssi == Some(5)
  {
    assert [FIVE_SAMPLE][..0] == [] && Gathered([FIVE_SAMPLE]) == Tally(5, 1, 1, Some(5), Some(5));
    assert Quotient(5, 1) == 5.0 && Truncate(4.5) == 4;
  }

  lemma HalfAbove(total: int, count: nat, lo: int)
    requires count > 0
    ensures 2 * total >= (2 * lo + 1) * count <==> Quotient(total, count) >= lo as real + 0.5
  {
    DivideBack(total as real, count as real);
    HalfAboveMean(Quotient(total, count), total, count, lo);
  }

  lemma DivideBack(x: real, n: real)
    requires n > 0.0
    ensures x / n * n == x
  {
  }

  lemma HalfAboveMean(q: real, total: int, count: nat, lo: int)
    requires count > 0 && q * count as real == total as real
    ensures 2 * total >= (2 * lo + 1) * count <==> q >= lo as real + 0.5
  {
    RealProduct(2 * lo + 1, count);
    HalfAboveReal(q, count as real, total as real, lo as real, (2 * lo + 1) as real);
  }

  lemma HalfAboveReal(q: real, n: real, t: real, lo: real, k: real)
    requires n > 0.0 && q * n == t && k == 2.0 * lo + 1.0
    ensures 2.0 * t >= k * n <==> q >= lo + 0.5
  {
    assert k * n == 2.0 * ((lo + 0.5) * n);
    CancelFactor(lo + 0.5, q, n);
    Scale(lo + 0.5, q, n);
  }

  lemma Scale(a: real, b: real, n: real)
    requires n > 0.0
    ensures a <= b ==> a * n <= b * n
  {
    if a <= b {
      assert (b - a) * n >= 0.0;
    }
  }

  lemma TruncateHalf(q: real, lo: int, hi: int)
    requires lo as real <= q <= hi as real
    ensures Truncate(q - 0.5) <= hi
    ensures lo <= Truncate(q - 0.5) <==> lo <= 0 || q >= lo as real + 0.5
  {
  }

  /** For the radio's non-positive readings every group mean lies between the group's extremes. */
  lemma NonPositiveMeanBetween(group: seq<Sample>)
    requires Ordered(group) && forall s :: s in group && s.rssi.Some? ==> s.maxRssi.value <= 0
    ensures Complete(group)
    ensures var p := Gathered(group);
            p.count > 0 ==>
              p.low.Some? && p.high.Some? && p.low.value <= GroupMean(p.total, p.count) <= p.high.value <= 0
  {
    GroupMeanBetween(group);
    GatheredBetween(group);
    HighIsSome(group);
  }

  lemma {:induction false} HighIsSome(group: seq<Sample>)
    requires Ordered(group) && Complete(group) && forall s :: s in group && s.rssi.Some? ==> s.maxRssi.value <= 0
    ensures Gathered(group).high.Some? ==> Gathered(group).high.value <= 0
    ensures Gathered(group).low.Some? ==> Gathered(group).low.value <= 0
  {
    if group != [] {
      assert group[|group| - 1] in group;
      HighIsSome(group[..|group| - 1]);
    }
  }

  predicate OrderedSample(s: Sample) {
    s.rssi.Some? ==> s.minRssi.Some? && s.maxRssi.Some? && s.minRssi.value <= s.rssi.value <= s.maxRssi.value <= 0
  }

  lemma {:induction false} SamplesOrdered(t: seq<Bucket>, log: seq<Entry>, key: string)
    requires AllSummarise(t, log, key)
    requires forall i :: 0 <= i < |t| && t[i].count > 0 ==> t[i].max <= 0
    ensures forall i :: 0 <= i < |t| ==> OrderedSample(Samples(t)[i])
  {
    if t != [] {
      var b := t[|t| - 1];
      SamplesOrdered(t[..|t| - 1], log, key);
      assert Summarises(b, ReadingsOf(log, key, b.at));
      if b.count > 0 {
        MinuteMeanBetween(b, ReadingsOf(log, key, b.at));
      }
    }
  }

  lemma {:induction false} GroupsOrdered(samples: seq<Sample>, size: nat)
    requires size > 0 && forall i :: 0 <= i < |samples| ==> OrderedSample(samples[i])
    ensures forall g :: g in Groups(samples, size) ==> forall s :: s in g ==> OrderedSample(s)
  {
    if |samples| > size {
      GroupsOrdered(samples[size..], size);
    }
  }

  predicate MeanInside(p: Point) {
    p.rssi.Some? ==> p.minRssi.Some? && p.maxRssi.Some? && p.minRssi.value <= p.rssi.value <= p.maxRssi.value
  }

  lemma {:induction false} SeriesMeansInside(groups: seq<seq<Sample>>)
    requires GoodGroups(groups)
    requires forall g :: g in groups ==> forall s :: s in g ==> OrderedSample(s)
    ensures forall i :: 0 <= i < |groups| ==> MeanInside(Series(groups)[i])
  {
    if groups != [] {
      assert groups[0] in groups && forall g :: g in groups[1..] ==> g in groups;
      SeriesMeansInside(groups[1..]);
      NonPositiveMeanBetween(groups[0]);
    }
  }

  predicate NonPositive(values: seq<int>) { forall v :: v in values ==> v <= 0 }

  /**
   With the non-positive RSSI a radio reports, every point's mean lies between that
   point's own extremes, from the log to the reduced series.
   */
  lemma PointMeansInside(trails: Trails, log: seq<Entry>, at: int, key: string, points: nat)
    requires Refines(trails, log, at) && key in trails && points > 0
    requires NonPositive(WindowRssis(log, key, at - SIGNAL_BUCKETS + 1))
    ensures var samples := Samples(trails[key]);
            var groups := Groups(samples, GroupSize(|samples|, points));
            GoodGroups(groups) && forall i :: 0 <= i < |groups| ==> MeanInside(Series(groups)[i])
  {
    var t := trails[key];
    var size := GroupSize(|Samples(t)|, points);
    SameWindow(t, log, key, at);
    forall i | 0 <= i < |t| && t[i].count > 0
      ensures t[i].max <= 0
    {
      BucketInWindow(t, log, key, at, i);
    }
    SamplesOrdered(t, log, key);
    HistorySamples(t);
    GroupsAreGood(Samples(t), size);
    GroupsOrdered(Samples(t), size);
    SeriesMeansInside(Groups(Samples(t), size));
  }
}
