/** What a history says, told from the log of readings alone (internal/service/signal.go). */
module SignalReadout {
  import opened Wrappers
  import opened SignalSpec
  import opened SignalHistory

  // ---------------------------------------------------------------- minutes and limits

  /** A minute holds sixty thousand million nanoseconds, before the year 1970 as well. */
  lemma MinuteIs(now: int)
    ensures 60_000_000_000 * Minute(now) <= now < 60_000_000_000 * (Minute(now) + 1)
  {
  }

  /** Whatever was recorded and when: 256 devices at most, each with 1 to 120 minutes, one after another. */
  lemma LimitsAre(calls: seq<Call>, key: string, i: nat)
    ensures |Run(calls)| <= 256
    ensures key in Run(calls) ==> 1 <= |Run(calls)[key]| <= 120
    ensures key in Run(calls) && i < |Run(calls)[key]| ==> Run(calls)[key][i].at == Run(calls)[key][0].at + i
  {
    RunBounded(calls);
  }

  // ---------------------------------------------------------------- the nearest integer

  /**
   `r` is the integer nearest to `total` over `count`; of two equally near, the one farther
   from zero. Multiplied out, so that no fraction is left.
   */
  predicate IsNearest(r: int, total: int, count: nat) {
    && 2 * total - count <= 2 * (r * count) <= 2 * total + count
    && (2 * (r * count) == 2 * total - count ==> r < 0)
    && (2 * (r * count) == 2 * total + count ==> r > 0)
  }

  /** There is one such integer. */
  lemma NearestIsUnique(r: int, s: int, total: int, count: nat)
    requires count > 0 && IsNearest(r, total, count) && IsNearest(s, total, count)
    ensures r == s
  {
    if r < s {
      Gap(r, s, count);
    } else if s < r {
      Gap(s, r, count);
    }
  }

  lemma Gap(r: int, s: int, count: nat)
    requires count > 0 && r < s
    ensures s * count - r * count >= count
    ensures s > r + 1 ==> s * count - r * count >= 2 * count
  {
    var k := s - r - 1;
    Spread(r, k, count);
    Grows(k, count);
  }

  lemma Spread(r: int, k: int, count: int)
    ensures (r + 1 + k) * count == r * count + count + k * count
  {
  }

  lemma Grows(k: nat, count: nat)
    ensures k * count >= 0 && (k >= 1 ==> k * count >= count)
  {
  }

  lemma RoundBounds(x: real)
    ensures var r := RoundToInt(x) as real;
            if x < 0.0 then r - 1.0 < x - 0.5 <= r else r <= x + 0.5 < r + 1.0
  {
  }

  // Bounds on a quotient, multiplied by the number divided by.

  lemma Above(q: real, r: real, h: real, c: real, total: real, rc: real)
    requires c > 0.0 && q * c == total && r * c == rc && q + h > r
    ensures total + h * c > rc
  {
    var d := q + h - r;
    assert d * c > 0.0;
    assert d * c == total + h * c - rc;
  }

  lemma Below(q: real, r: real, h: real, c: real, total: real, rc: real)
    requires c > 0.0 && q * c == total && r * c == rc && q < r + h
    ensures total < rc + h * c
  {
    var d := r + h - q;
    assert d * c > 0.0;
    assert d * c == rc + h * c - total;
  }

  lemma NotAbove(q: real, r: real, h: real, c: real, total: real, rc: real)
    requires c > 0.0 && q * c == total && r * c == rc && q <= r + h
    ensures total <= rc + h * c
  {
    var d := r + h - q;
    assert d * c >= 0.0;
    assert d * c == rc + h * c - total;
  }

  lemma NotBelow(q: real, r: real, h: real, c: real, total: real, rc: real)
    requires c > 0.0 && q * c == total && r * c == rc && q + h >= r
    ensures total + h * c >= rc
  {
    var d := q + h - r;
    assert d * c >= 0.0;
    assert d * c == total + h * c - rc;
  }

  lemma RoundIsNearest(total: int, count: nat)
    requires count > 0
    ensures IsNearest(RoundToInt(Quotient(total, count)), total, count)
  {
    var q, r := Quotient(total, count), RoundToInt(Quotient(total, count));
    RoundBounds(q);
    if q < 0.0 {
      BelowCleared(q, r, total, count);
      NearestBelow(r, total, count);
    } else {
      AboveCleared(q, r, total, count);
      NearestAbove(r, total, count);
    }
  }

  lemma BelowCleared(q: real, r: int, total: int, count: nat)
    requires count > 0 && q == Quotient(total, count) < 0.0 && r as real - 1.0 < q - 0.5 <= r as real
    ensures 2 * (r * count) - 2 * count < 2 * total - count <= 2 * (r * count)
    ensures r <= 0 && total < 0
  {
    RealProduct(r, count);
    RealBelow(q, r as real, count as real, total as real, (r * count) as real);
    BelowInIntegers(r * count, total, count);
  }

  lemma RealBelow(q: real, r: real, c: real, total: real, rc: real)
    requires c > 0.0 && q == total / c && r * c == rc && q < 0.0 && r - 1.0 < q - 0.5 <= r
    ensures rc - c < total - 0.5 * c <= rc && total < 0.0
  {
    assert q * c == total;
    Above(q, r, 0.5, c, total, rc);
    NotAbove(q, r, 0.5, c, total, rc);
    assert total < 0.0;
  }

  lemma BelowInIntegers(rc: int, total: int, count: int)
    requires rc as real - count as real < total as real - 0.5 * (count as real) <= rc as real
    ensures 2 * rc - 2 * count < 2 * total - count <= 2 * rc
  {
  }

  lemma AboveCleared(q: real, r: int, total: int, count: nat)
    requires count > 0 && q == Quotient(total, count) >= 0.0 && r as real <= q + 0.5 < r as real + 1.0
    ensures 2 * (r * count) <= 2 * total + count < 2 * (r * count) + 2 * count
    ensures r >= 0 && total >= 0
  {
    RealProduct(r, count);
    RealAbove(q, r as real, count as real, total as real, (r * count) as real);
    AboveInIntegers(r * count, total, count);
  }

  lemma RealAbove(q: real, r: real, c: real, total: real, rc: real)
    requires c > 0.0 && q == total / c && r * c == rc && q >= 0.0 && r <= q + 0.5 < r + 1.0
    ensures rc <= total + 0.5 * c < rc + c && total >= 0.0
  {
    assert q * c == total;
    NotBelow(q, r, 0.5, c, total, rc);
    Below(q, r, 0.5, c, total, rc);
    assert total >= 0.0;
  }

  lemma AboveInIntegers(rc: int, total: int, count: int)
    requires rc as real <= total as real + 0.5 * (count as real) < rc as real + count as real
    ensures 2 * rc <= 2 * total + count < 2 * rc + 2 * count
  {
  }

  lemma NearestBelow(r: int, total: int, count: nat)
    requires count > 0 && r <= 0 && total < 0
    requires 2 * (r * count) - 2 * count < 2 * total - count <= 2 * (r * count)
    ensures IsNearest(r, total, count)
  {
  }

  lemma NearestAbove(r: int, total: int, count: nat)
    requires count > 0 && r >= 0 && total >= 0
    requires 2 * (r * count) <= 2 * total + count < 2 * (r * count) + 2 * count
    ensures IsNearest(r, total, count)
  {
  }

  // ---------------------------------------------------------------- minutes and the window

  /** How many of the minutes from `first` to `last` have a reading of the device. */
  function MinutesSeen(log: seq<Entry>, key: string, first: int, last: int): nat
    decreases last - first
  {
    if last < first then 0
    else MinutesSeen(log, key, first, last - 1) + if ReadingsOf(log, key, last) != [] then 1 else 0
  }

  /** A sample says of its minute what the log does. */
  ghost predicate SaysOf(s: Sample, readings: seq<Device>) {
    var rssis := Rssis(readings);
    && (s.present <==> readings != [])
    && s.samples == |rssis|
    && if rssis == [] then s.rssi == s.minRssi == s.maxRssi == s.quality == None
       else
         && s.rssi.Some? && IsNearest(s.rssi.value, Sum(rssis), |rssis|)
         && s.minRssi.Some? && IsLeast(s.minRssi.value, rssis)
         && s.maxRssi.Some? && IsGreatest(s.maxRssi.value, rssis)
         && s.quality == if LastQuality(readings) == 0 then None else Some(LastQuality(readings))
  }

  lemma SampleSays(b: Bucket, readings: seq<Device>)
    requires Summarises(b, readings)
    ensures SaysOf(SampleOf(b), readings) && SampleOf(b).at == b.at
  {
    if b.count > 0 {
      RoundIsNearest(b.sum, b.count);
    }
  }

  lemma {:induction false} SamplesAt(t: seq<Bucket>, i: nat)
    requires i < |t|
    ensures Samples(t)[i] == SampleOf(t[i])
  {
    if i < |t| - 1 {
      SamplesAt(t[..|t| - 1], i);
    }
  }

  /** The samples are those of consecutive minutes up to now, and each says what the log does. */
  lemma SamplesFromLog(trails: Trails, log: seq<Entry>, at: int, key: string, i: nat)
    requires Refines(trails, log, at) && key in trails && i < |trails[key]|
    ensures var h := HistoryOf(key, trails[key]);
            && 1 <= |h.samples| <= 120 && i < |h.samples| && h.samples[i].at == at - |h.samples| + 1 + i
            && SaysOf(h.samples[i], ReadingsOf(log, key, h.samples[i].at))
  {
    var t := trails[key];
    SamplesAt(t, i);
    assert Tracks(t, log, key, at) && t[i].at == t[0].at + i && Last(t).at == at;
    SampleSays(t[i], ReadingsOf(log, key, t[i].at));
  }

  lemma {:induction false} PresentFromLog(t: seq<Bucket>, log: seq<Entry>, key: string)
    requires InOrder(t) && AllSummarise(t, log, key)
    ensures TallyOf(t).present == MinutesSeen(log, key, t[0].at, Last(t).at)
  {
    var front, b := t[..|t| - 1], t[|t| - 1];
    assert MinutesSeen(log, key, b.at, b.at - 1) == 0;
    if front != [] {
      PresentFromLog(front, log, key);
      assert Last(front).at == b.at - 1;
    }
  }

  /** `p` is the whole number of per cent that `part` is of `all`. */
  predicate IsPercent(p: nat, part: nat, all: nat) { p * all <= 100 * part < p * all + all }

  /** Mean, least and greatest of all readings of the window; none exactly when there are none. */
  ghost predicate SaysOfWindow(h: History, rssis: seq<int>) {
    if rssis == [] then h.meanRssi == h.minRssi == h.maxRssi == None
    else
      && h.meanRssi.Some? && IsNearest(h.meanRssi.value, Sum(rssis), |rssis|)
      && h.minRssi.Some? && IsLeast(h.minRssi.value, rssis)
      && h.maxRssi.Some? && IsGreatest(h.maxRssi.value, rssis)
  }

  lemma WindowFromLog(trails: Trails, log: seq<Entry>, at: int, key: string)
    requires Refines(trails, log, at) && key in trails
    ensures SaysOfWindow(HistoryOf(key, trails[key]), WindowRssis(log, key, at - 119))
  {
    var rssis := WindowRssis(log, key, at - 119);
    HistoryIsTheWindow(trails, log, at, key);
    if rssis != [] {
      RoundIsNearest(Sum(rssis), |rssis|);
    }
  }

  /** The time covered, and the share of its minutes that have a reading. */
  ghost predicate SaysOfPresence(h: History, log: seq<Entry>, at: int, key: string) {
    && h.extendedAddress == key && h.coveredSeconds == 60 * |h.samples| && h.presentPercent.Some?
    && h.presentPercent.value >= 0
    && IsPercent(h.presentPercent.value, MinutesSeen(log, key, at - |h.samples| + 1, at), |h.samples|)
  }

  lemma PresenceFromLog(trails: Trails, log: seq<Entry>, at: int, key: string)
    requires Refines(trails, log, at) && key in trails
    ensures SaysOfPresence(HistoryOf(key, trails[key]), log, at, key)
  {
    var t := trails[key];
    assert Tracks(t, log, key, at) && Last(t).at == at;
    PresentFromLog(t, log, key);
    HistoryPresence(key, t);
  }

  lemma HistoryPresence(key: string, t: seq<Bucket>)
    requires t != []
    ensures var h := HistoryOf(key, t);
            && h.extendedAddress == key && |h.samples| == |t| && h.coveredSeconds == 60 * |t|
            && h.presentPercent.Some? && h.presentPercent.value >= 0
            && IsPercent(h.presentPercent.value, TallyOf(t).present, |t|)
  {
    PercentOf(TallyOf(t).present, |t|);
  }

  lemma PercentOf(part: nat, all: nat)
    requires all > 0
    ensures IsPercent(part * 100 / all, part, all)
  {
    assert part * 100 == (part * 100 / all) * all + part * 100 % all;
  }
}
