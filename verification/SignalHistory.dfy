/**
 Reading the trails out: `History` (internal/service/signal.go) and the reduction to
 a few points, `reduceSignal` (internal/mcpserver/server.go). Means are exact
 rationals here; the float rounding of the division is not modelled.
 */
module SignalHistory {
  import opened Wrappers
  import opened SignalSpec

  const BUCKET_SECONDS: nat := 60

  datatype Sample = Sample(at: int, present: bool, samples: nat,
                           rssi: Option<int>, minRssi: Option<int>, maxRssi: Option<int>, quality: Option<int>)

  datatype History = History(extendedAddress: string, samples: seq<Sample>, coveredSeconds: nat,
                             meanRssi: Option<int>, minRssi: Option<int>, maxRssi: Option<int>,
                             presentPercent: Option<int>)

  datatype Point = Point(at: int, rssi: Option<int>, minRssi: Option<int>, maxRssi: Option<int>, presentPercent: nat)

  // ---------------------------------------------------------------- rounding

  /** Conversion of a float to an integer drops the fraction. */
  function Truncate(x: real): int { if x < 0.0 then -((-x).Floor) else x.Floor }

  /** The nearest integer; of two equally near, the one farther from zero. */
  function RoundToInt(x: real): int { if x < 0.0 then Truncate(x - 0.5) else Truncate(x + 0.5) }

  function Quotient(total: int, count: nat): real
    requires count > 0
  {
    total as real / count as real
  }

  lemma QuotientBetween(total: int, count: nat, lo: int, hi: int)
    requires count > 0 && lo * count <= total <= hi * count
    ensures lo as real <= Quotient(total, count) <= hi as real
  {
    RealProduct(lo, count);
    RealProduct(hi, count);
    Between(Quotient(total, count), count as real, total as real, lo as real, hi as real);
  }

  lemma RealProduct(a: int, b: int)
    ensures (a * b) as real == a as real * b as real
  {
  }

  lemma Between(q: real, n: real, total: real, lo: real, hi: real)
    requires n > 0.0 && q == total / n && lo * n <= total <= hi * n
    ensures lo <= q <= hi
  {
    assert q * n == total;
    CancelFactor(lo, q, n);
    CancelFactor(q, hi, n);
  }

  lemma CancelFactor(a: real, b: real, n: real)
    requires n > 0.0
    ensures a * n <= b * n ==> a <= b
  {
    if a > b {
      assert (a - b) * n > 0.0;
    }
  }

  /** A rounded mean stays between integers its exact value is between. */
  lemma RoundedBetween(x: real, lo: int, hi: int)
    requires lo as real <= x <= hi as real
    ensures lo <= RoundToInt(x) <= hi
  {
  }

  // ---------------------------------------------------------------- History

  function SampleOf(b: Bucket): Sample {
    if b.count > 0 then
      Sample(b.at, b.present, b.count, Some(RoundToInt(Quotient(b.sum, b.count))), Some(b.min), Some(b.max),
             if b.quality != 0 then Some(b.quality) else None)
    else Sample(b.at, b.present, b.count, None, None, None, None)
  }

  function Samples(t: seq<Bucket>): (r: seq<Sample>)
    ensures |r| == |t|
  {
    if t == [] then [] else Samples(t[..|t| - 1]) + [SampleOf(t[|t| - 1])]
  }

  function Lesser(a: Option<int>, b: Option<int>): Option<int> {
    if a.None? then b else if b.Some? && b.value < a.value then b else a
  }

  function Greater(a: Option<int>, b: Option<int>): Option<int> {
    if a.None? then b else if b.Some? && b.value > a.value then b else a
  }

  /** What the loop over the buckets has gathered. */
  datatype Tally = Tally(total: int, count: nat, present: nat, low: Option<int>, high: Option<int>)

  function TallyOf(t: seq<Bucket>): (r: Tally)
    ensures r.present <= |t|
  {
    if t == [] then Tally(0, 0, 0, None, None)
    else
      var b, before := t[|t| - 1], TallyOf(t[..|t| - 1]);
      Tally(before.total + if b.count > 0 then b.sum else 0,
            before.count + b.count,
            before.present + if b.present then 1 else 0,
            if b.count > 0 then Lesser(before.low, Some(b.min)) else before.low,
            if b.count > 0 then Greater(before.high, Some(b.max)) else before.high)
  }

  function HistoryOf(key: string, t: seq<Bucket>): History {
    var tally := TallyOf(t);
    var any := tally.count > 0;
    History(key, Samples(t), |t| * BUCKET_SECONDS,
            if any then Some(RoundToInt(Quotient(tally.total, tally.count))) else None,
            if any then tally.low else None,
            if any then tally.high else None,
            if |t| > 0 then Some(tally.present * 100 / |t|) else None)
  }

  // ---------------------------------------------------------------- History against the log

  /** Every RSSI the log accepted of a device from minute `first` on. */
  function WindowRssis(log: seq<Entry>, key: string, first: int): seq<int> {
    if log == [] then []
    else
      var e, before := log[|log| - 1], WindowRssis(log[..|log| - 1], key, first);
      if e.key == key && e.minute >= first && e.reading.rssi.Some? then before + [e.reading.rssi.value] else before
  }

  /** The same minute by minute: sum and number of the readings of minutes `first` to `last`. */
  function MinutesSum(log: seq<Entry>, key: string, first: int, last: int): int
    decreases last - first
  {
    if last < first then 0
    else MinutesSum(log, key, first, last - 1) + Sum(Rssis(ReadingsOf(log, key, last)))
  }

  function MinutesCount(log: seq<Entry>, key: string, first: int, last: int): nat
    decreases last - first
  {
    if last < first then 0
    else MinutesCount(log, key, first, last - 1) + |Rssis(ReadingsOf(log, key, last))|
  }

  /** What one more entry adds to the minutes from `first` to `last`. */
  lemma {:induction false} MinutesGrow(log: seq<Entry>, e: Entry, key: string, first: int, last: int)
    ensures var counts := e.key == key && first <= e.minute <= last && e.reading.rssi.Some?;
            && MinutesSum(log + [e], key, first, last)
               == MinutesSum(log, key, first, last) + (if counts then e.reading.rssi.value else 0)
            && MinutesCount(log + [e], key, first, last)
               == MinutesCount(log, key, first, last) + (if counts then 1 else 0)
    decreases last - first
  {
    if first <= last {
      MinutesGrow(log, e, key, first, last - 1);
      LogGrows(log, e, key, last);
      RssisGrow(ReadingsOf(log, key, last), e.reading);
      if e.reading.rssi.Some? {
        SumGrows(Rssis(ReadingsOf(log, key, last)), e.reading.rssi.value);
      }
    }
  }

  lemma {:induction false} MinutesEmpty(key: string, first: int, last: int)
    ensures MinutesSum([], key, first, last) == 0 && MinutesCount([], key, first, last) == 0
    decreases last - first
  {
    if first <= last {
      MinutesEmpty(key, first, last - 1);
    }
  }

  /** Adding up minute by minute is adding up the window. */
  lemma {:induction false} MinutesAreTheWindow(log: seq<Entry>, key: string, first: int, last: int)
    requires NoneAfter(log, key, last)
    ensures MinutesSum(log, key, first, last) == Sum(WindowRssis(log, key, first))
    ensures MinutesCount(log, key, first, last) == |WindowRssis(log, key, first)|
  {
    if log == [] {
      MinutesEmpty(key, first, last);
    } else {
      var front, e := log[..|log| - 1], log[|log| - 1];
      assert log == front + [e] && e in log;
      MinutesAreTheWindow(front, key, first, last);
      MinutesGrow(front, e, key, first, last);
      if e.reading.rssi.Some? {
        SumGrows(WindowRssis(front, key, first), e.reading.rssi.value);
      }
    }
  }

  lemma {:induction false} InWindow(log: seq<Entry>, key: string, first: int, v: int)
    ensures v in WindowRssis(log, key, first) <==>
            exists e :: e in log && e.key == key && e.minute >= first && e.reading.rssi == Some(v)
  {
    if log != [] {
      var front, e := log[..|log| - 1], log[|log| - 1];
      InWindow(front, key, first, v);
      assert log == front + [e];
      assert forall d :: d in log <==> d in front || d == e;
    }
  }

  lemma {:induction false} InMinute(log: seq<Entry>, key: string, minute: int, v: int)
    ensures v in Rssis(ReadingsOf(log, key, minute)) <==>
            exists e :: e in log && e.key == key && e.minute == minute && e.reading.rssi == Some(v)
  {
    if log != [] {
      var front, e := log[..|log| - 1], log[|log| - 1];
      InMinute(front, key, minute, v);
      assert log == front + [e];
      LogGrows(front, e, key, minute);
      RssisGrow(ReadingsOf(front, key, minute), e.reading);
      assert forall d :: d in log <==> d in front || d == e;
    }
  }

  /** The tally of a trail's buckets, told from the log. */
  lemma {:induction false} TallyFromLog(t: seq<Bucket>, log: seq<Entry>, key: string)
    requires InOrder(t) && AllSummarise(t, log, key)
    ensures TallyOf(t).total == MinutesSum(log, key, t[0].at, Last(t).at)
    ensures TallyOf(t).count == MinutesCount(log, key, t[0].at, Last(t).at)
    ensures TallyOf(t).low.Some? == TallyOf(t).high.Some? == (TallyOf(t).count > 0)
  {
    var front, b := t[..|t| - 1], t[|t| - 1];
    assert MinutesSum(log, key, b.at, b.at - 1) == 0 && MinutesCount(log, key, b.at, b.at - 1) == 0;
    if front != [] {
      TallyFromLog(front, log, key);
      assert Last(front).at == b.at - 1;
    }
  }

  /** The extremes of the tally are readings of some bucket's minute, and bound every bucket. */
  lemma {:induction false} TallyExtremes(t: seq<Bucket>)
    ensures var r := TallyOf(t);
            && (r.low.Some? ==> exists i :: 0 <= i < |t| && t[i].count > 0 && r.low == Some(t[i].min))
            && (r.high.Some? ==> exists i :: 0 <= i < |t| && t[i].count > 0 && r.high == Some(t[i].max))
            && forall i :: 0 <= i < |t| && t[i].count > 0 ==>
                 r.low.Some? && r.low.value <= t[i].min && r.high.Some? && r.high.value >= t[i].max
  {
    if t != [] {
      var front := t[..|t| - 1];
      TallyExtremes(front);
      assert forall i :: 0 <= i < |front| ==> t[i] == front[i];
    }
  }

  /**
   What History reports of a device is what the log says of the last 120 minutes:
   the mean of all its accepted RSSI readings, the least and the greatest of them,
   and nothing exactly when there are none.
   */
  lemma HistoryIsTheWindow(trails: Trails, log: seq<Entry>, at: int, key: string)
    requires Refines(trails, log, at) && key in trails
    ensures var h := HistoryOf(key, trails[key]);
            var rssis := WindowRssis(log, key, at - SIGNAL_BUCKETS + 1);
            if rssis == [] then h.meanRssi == h.minRssi == h.maxRssi == None
            else
              && h.meanRssi == Some(RoundToInt(Quotient(Sum(rssis), |rssis|)))
              && h.minRssi.Some? && IsLeast(h.minRssi.value, rssis)
              && h.maxRssi.Some? && IsGreatest(h.maxRssi.value, rssis)
  {
    var t, tally := trails[key], TallyOf(trails[key]);
    var first := at - SIGNAL_BUCKETS + 1;
    var rssis := WindowRssis(log, key, t[0].at);
    SameWindow(t, log, key, at);
    TallyFromLog(t, log, key);
    MinutesAreTheWindow(log, key, t[0].at, at);
    TallyExtremes(t);
    if rssis != [] {
      forall v | v in rssis
        ensures tally.low.value <= v <= tally.high.value
      {
        InBucket(t, log, key, at, v);
      }
      var i :| 0 <= i < |t| && t[i].count > 0 && tally.low == Some(t[i].min);
      var j :| 0 <= j < |t| && t[j].count > 0 && tally.high == Some(t[j].max);
      BucketInWindow(t, log, key, at, i);
      BucketInWindow(t, log, key, at, j);
    }
  }

  /** The window of 120 minutes and the trail's own reach hold the same readings. */
  lemma SameWindow(t: seq<Bucket>, log: seq<Entry>, key: string, at: int)
    requires Tracks(t, log, key, at) && Last(t).at == at
    ensures WindowRssis(log, key, at - SIGNAL_BUCKETS + 1) == WindowRssis(log, key, t[0].at)
  {
    SameFilter(log, key, at - SIGNAL_BUCKETS + 1, t[0].at);
  }

  lemma {:induction false} SameFilter(log: seq<Entry>, key: string, a: int, b: int)
    requires a <= b && forall e :: e in log && e.key == key && e.minute >= a ==> e.minute >= b
    ensures WindowRssis(log, key, a) == WindowRssis(log, key, b)
  {
    if log != [] {
      assert log[|log| - 1] in log;
      SameFilter(log[..|log| - 1], key, a, b);
    }
  }

  /** A reading of the window lies between the extremes of the bucket of its minute. */
  lemma InBucket(t: seq<Bucket>, log: seq<Entry>, key: string, at: int, v: int)
    requires Tracks(t, log, key, at) && Last(t).at == at && v in WindowRssis(log, key, t[0].at)
    ensures exists i :: 0 <= i < |t| && t[i].count > 0 && t[i].min <= v <= t[i].max
  {
    InWindow(log, key, t[0].at, v);
    var e :| e in log && e.key == key && e.minute >= t[0].at && e.reading.rssi == Some(v);
    var i := e.minute - t[0].at;
    assert t[i].at == e.minute;
    InMinute(log, key, e.minute, v);
    assert Summarises(t[i], ReadingsOf(log, key, t[i].at));
  }

  lemma BucketInWindow(t: seq<Bucket>, log: seq<Entry>, key: string, at: int, i: nat)
    requires Tracks(t, log, key, at) && Last(t).at == at && i < |t| && t[i].count > 0
    ensures t[i].min in WindowRssis(log, key, t[0].at) && t[i].max in WindowRssis(log, key, t[0].at)
  {
    assert Summarises(t[i], ReadingsOf(log, key, t[i].at));
    InMinute(log, key, t[i].at, t[i].min);
    InMinute(log, key, t[i].at, t[i].max);
    InWindow(log, key, t[0].at, t[i].min);
    InWindow(log, key, t[0].at, t[i].max);
  }

  lemma {:induction false} SumBetween(values: seq<int>, lo: int, hi: int)
    requires forall v :: v in values ==> lo <= v <= hi
    ensures lo * |values| <= Sum(values) <= hi * |values|
  {
    if values != [] {
      var front, v := values[..|values| - 1], values[|values| - 1];
      assert v in values && forall w :: w in front ==> w in values;
      SumBetween(front, lo, hi);
      assert lo * |values| == lo * |front| + lo && hi * |values| == hi * |front| + hi;
    }
  }

  /** The mean of the window lies between its extremes, whatever the signs. */
  lemma WindowMeanBetween(trails: Trails, log: seq<Entry>, at: int, key: string)
    requires Refines(trails, log, at) && key in trails
    ensures var h := HistoryOf(key, trails[key]);
            h.meanRssi.Some? ==>
              h.minRssi.Some? && h.maxRssi.Some? && h.minRssi.value <= h.meanRssi.value <= h.maxRssi.value
  {
    HistoryIsTheWindow(trails, log, at, key);
    var h := HistoryOf(key, trails[key]);
    var rssis := WindowRssis(log, key, at - SIGNAL_BUCKETS + 1);
    if rssis != [] {
      SumBetween(rssis, h.minRssi.value, h.maxRssi.value);
      QuotientBetween(Sum(rssis), |rssis|, h.minRssi.value, h.maxRssi.value);
      RoundedBetween(Quotient(Sum(rssis), |rssis|), h.minRssi.value, h.maxRssi.value);
    }
  }

  /** So does the mean of every minute. */
  lemma MinuteMeanBetween(b: Bucket, readings: seq<Device>)
    requires Summarises(b, readings) && b.count > 0
    ensures var s := SampleOf(b); s.minRssi.value <= s.rssi.value <= s.maxRssi.value
  {
    var rssis := Rssis(readings);
    SumBetween(rssis, b.min, b.max);
    QuotientBetween(b.sum, b.count, b.min, b.max);
    RoundedBetween(Quotient(b.sum, b.count), b.min, b.max);
  }
}
