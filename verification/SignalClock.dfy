/** What a clock that steps back does to the signal trail: exactly which recordings it still summarises. */
module SignalClock {
  import opened Wrappers
  import opened SignalSpec

  // ---------------------------------------------------------------- one bucket, several readings

  /** A bucket that takes several readings one after another. */
  function AddAll(b: Bucket, rs: seq<Device>): Bucket {
    if rs == [] then b else AddTo(AddAll(b, rs[..|rs| - 1]), rs[|rs| - 1])
  }

  predicate HasQuality(rs: seq<Device>) { exists d :: d in rs && d.linkQuality.Some? }

  /** No reading has an RSSI, something is present already, and the last quality named is the bucket's own. */
  predicate Leaves(b: Bucket, rs: seq<Device>) {
    Rssis(rs) == [] && b.present && (HasQuality(rs) ==> LastQuality(rs) == b.quality)
  }

  lemma QualityGrows(rs: seq<Device>, d: Device)
    ensures HasQuality(rs + [d]) <==> HasQuality(rs) || d.linkQuality.Some?
  {
    assert d in rs + [d];
    if HasQuality(rs) {
      var e :| e in rs && e.linkQuality.Some?;
      assert e in rs + [d];
    }
  }

  function QualityAfter(quality: int, rs: seq<Device>): int { if HasQuality(rs) then LastQuality(rs) else quality }

  lemma {:induction false} AddAllQuality(b: Bucket, rs: seq<Device>)
    ensures AddAll(b, rs).quality == QualityAfter(b.quality, rs)
  {
    if rs != [] {
      var front, d := rs[..|rs| - 1], rs[|rs| - 1];
      assert rs == front + [d];
      AddAllQuality(b, front);
      QualityGrows(front, d);
      RssisGrow(front, d);
    }
  }

  lemma {:induction false} AddAllCounts(b: Bucket, rs: seq<Device>)
    ensures var r := AddAll(b, rs);
            && r.at == b.at && r.count == b.count + |Rssis(rs)| && r.present == (b.present || rs != [])
            && (Rssis(rs) == [] ==> r.sum == b.sum && r.min == b.min && r.max == b.max)
  {
    if rs != [] {
      AddAllCounts(b, rs[..|rs| - 1]);
      assert Rssis(rs) == [] ==> rs[|rs| - 1].rssi.None?;
    }
  }

  lemma AddAllFields(b: Bucket, rs: seq<Device>)
    ensures var r := AddAll(b, rs);
            && r.at == b.at && r.count == b.count + |Rssis(rs)| && r.present == (b.present || rs != [])
            && r.quality == QualityAfter(b.quality, rs)
            && (Rssis(rs) == [] ==> r == b.(present := r.present, quality := r.quality))
  {
    AddAllCounts(b, rs);
    AddAllQuality(b, rs);
  }

  lemma {:induction false} AddAllSummarises(b: Bucket, readings: seq<Device>, rs: seq<Device>)
    requires Summarises(b, readings)
    ensures Summarises(AddAll(b, rs), readings + rs)
  {
    if rs == [] {
      assert readings + rs == readings;
    } else {
      var front, d := rs[..|rs| - 1], rs[|rs| - 1];
      AddAllSummarises(b, readings, front);
      AddSummarises(AddAll(b, front), readings + front, d);
      assert readings + rs == readings + front + [d];
    }
  }

  lemma {:induction false} ReadingsJoin(earlier: seq<Device>, rs: seq<Device>)
    ensures Rssis(earlier + rs) == Rssis(earlier) + Rssis(rs)
    ensures LastQuality(earlier + rs) == QualityAfter(LastQuality(earlier), rs)
  {
    if rs == [] {
      assert earlier + rs == earlier;
    } else {
      var front, d := rs[..|rs| - 1], rs[|rs| - 1];
      assert rs == front + [d] && earlier + rs == earlier + front + [d];
      ReadingsJoin(earlier, front);
      QualityGrows(front, d);
      RssisGrow(front, d);
      RssisGrow(earlier + front, d);
    }
  }

  /**
   Readings put into a bucket they do not belong to, or kept out of the one they do: either
   way the bucket stays right if and only if they leave it as it is.
   */
  lemma MisfiledIff(b: Bucket, readings: seq<Device>, rs: seq<Device>)
    requires Summarises(b, readings) && rs != []
    ensures Summarises(AddAll(b, rs), readings) <==> Leaves(b, rs)
    ensures Summarises(b, readings + rs) <==> Leaves(b, rs)
    ensures Leaves(b, rs) <==> AddAll(b, rs) == b
  {
    AddAllFields(b, rs);
    ReadingsJoin(readings, rs);
    assert Rssis(readings) + [] == Rssis(readings);
  }

  /**
   A bucket started anew for readings, though the log has `earlier` ones of the minute: right if and
   only if none of those has an RSSI, and their quality is that of a blank bucket or is replaced.
   */
  lemma RestartedIff(at: int, earlier: seq<Device>, rs: seq<Device>)
    requires rs != []
    ensures Summarises(AddAll(Blank(at), rs), earlier + rs) <==> Restarts(earlier, rs)
  {
    AddAllSummarises(Blank(at), [], rs);
    assert [] + rs == rs;
    AddAllFields(Blank(at), rs);
    ReadingsJoin(earlier, rs);
    assert [] + Rssis(rs) == Rssis(rs);
  }

  predicate Restarts(earlier: seq<Device>, rs: seq<Device>) {
    Rssis(earlier) == [] && (HasQuality(rs) || LastQuality(earlier) == 0)
  }

  // ---------------------------------------------------------------- one trail

  function AddedAll(t: seq<Bucket>, rs: seq<Device>): seq<Bucket>
    requires t != []
  {
    t[|t| - 1 := AddAll(Last(t), rs)]
  }

  /** The longer log has readings `rs` of the device more, all of minute `at`. */
  ghost predicate Adds(log: seq<Entry>, longer: seq<Entry>, key: string, at: int, rs: seq<Device>) {
    && (forall m :: ReadingsOf(longer, key, m) == ReadingsOf(log, key, m) + if m == at then rs else [])
    && forall e: Entry :: e.key == key ==> (e in longer <==> e in log || (e.minute == at && e.reading in rs))
  }

  /**
   Readings that come too late for a trail go unnoticed: they leave its last bucket, where they
   are put, as it is, and that of their own minute too, unless their minute is not in the trail
   and out of the window.
   */
  predicate Unnoticed(t: seq<Bucket>, rs: seq<Device>, at: int)
    requires InOrder(t) && at < Last(t).at
  {
    && Leaves(Last(t), rs)
    && if t[0].at <= at then Leaves(t[at - t[0].at], rs) else at <= Last(t).at - SIGNAL_BUCKETS
  }

  lemma {:induction false} InTimeTracks(t: seq<Bucket>, log: seq<Entry>, longer: seq<Entry>, key: string, at: int,
                                        rs: seq<Device>)
    requires Tracks(t, log, key, at) && Last(t).at == at && Adds(log, longer, key, at, rs)
    ensures Tracks(AddedAll(t, rs), longer, key, at)
  {
    var r := AddedAll(t, rs);
    AddAllCounts(Last(t), rs);
    forall i | 0 <= i < |r|
      ensures r[i].at == t[i].at && Summarises(r[i], ReadingsOf(longer, key, r[i].at))
    {
      assert ReadingsOf(longer, key, t[i].at) == ReadingsOf(log, key, t[i].at) + if t[i].at == at then rs else [];
      AddAllSummarises(t[i], ReadingsOf(log, key, t[i].at), rs);
      assert ReadingsOf(log, key, t[i].at) + [] == ReadingsOf(log, key, t[i].at);
    }
  }

  lemma LateBucketIff(t: seq<Bucket>, log: seq<Entry>, longer: seq<Entry>, key: string, at: int, rs: seq<Device>,
                      i: nat)
    requires InOrder(t) && i < |t| && at < Last(t).at && rs != [] && Adds(log, longer, key, at, rs)
    requires Summarises(t[i], ReadingsOf(log, key, t[i].at))
    ensures var r := AddedAll(t, rs);
            && r[i].at == t[i].at
            && (Summarises(r[i], ReadingsOf(longer, key, t[i].at)) <==>
                  ((i == |t| - 1 || t[i].at == at) ==> Leaves(t[i], rs)))
  {
    AddAllCounts(t[i], rs);
    MisfiledIff(t[i], ReadingsOf(log, key, t[i].at), rs);
    assert ReadingsOf(log, key, t[i].at) + [] == ReadingsOf(log, key, t[i].at);
  }

  lemma LateSummariseIff(t: seq<Bucket>, log: seq<Entry>, longer: seq<Entry>, key: string, at: int, rs: seq<Device>)
    requires InOrder(t) && AllSummarise(t, log, key) && at < Last(t).at && rs != []
    requires Adds(log, longer, key, at, rs)
    ensures InOrder(AddedAll(t, rs)) && AddedAll(t, rs)[0].at == t[0].at && Last(AddedAll(t, rs)).at == Last(t).at
    ensures AllSummarise(AddedAll(t, rs), longer, key) <==>
            Leaves(Last(t), rs) && (t[0].at <= at ==> Leaves(t[at - t[0].at], rs))
  {
    var r := AddedAll(t, rs);
    forall i | 0 <= i < |t|
      ensures r[i].at == t[i].at
      ensures Summarises(r[i], ReadingsOf(longer, key, t[i].at)) <==>
              ((i == |t| - 1 || t[i].at == at) ==> Leaves(t[i], rs))
    {
      LateBucketIff(t, log, longer, key, at, rs, i);
    }
    assert t[0].at <= at ==> t[at - t[0].at].at == at;
  }

  /** Whatever the readings: the trail stays a summary if and only if it does not end later, or they go unnoticed. */
  lemma FiledIff(t: seq<Bucket>, log: seq<Entry>, longer: seq<Entry>, key: string, at: int, rs: seq<Device>)
    requires t != [] && Tracks(t, log, key, Last(t).at) && rs != [] && Adds(log, longer, key, at, rs)
    ensures var r := AddedAll(Advanced(t, at), rs);
            Tracks(r, longer, key, Last(r).at) <==> Last(t).at <= at || Unnoticed(t, rs, at)
  {
    if Last(t).at <= at {
      InTimeIsFiled(t, log, longer, key, at, rs);
    } else {
      LateIsFiledIff(t, log, longer, key, at, rs);
    }
  }

  lemma InTimeIsFiled(t: seq<Bucket>, log: seq<Entry>, longer: seq<Entry>, key: string, at: int, rs: seq<Device>)
    requires Tracks(t, log, key, at) && Adds(log, longer, key, at, rs)
    ensures var r := AddedAll(Advanced(t, at), rs);
            Last(r).at == at && Tracks(r, longer, key, at)
  {
    AdvanceTracks(t, log, key, at);
    InTimeTracks(Advanced(t, at), log, longer, key, at, rs);
    AddAllCounts(Last(Advanced(t, at)), rs);
  }

  lemma LateIsFiledIff(t: seq<Bucket>, log: seq<Entry>, longer: seq<Entry>, key: string, at: int, rs: seq<Device>)
    requires Consecutive(t) && Tracks(t, log, key, Last(t).at) && at < Last(t).at
    requires rs != [] && Adds(log, longer, key, at, rs)
    ensures var r := AddedAll(t, rs);
            Tracks(r, longer, key, Last(r).at) <==> Unnoticed(t, rs, at)
  {
    var r := AddedAll(t, rs);
    LateSummariseIff(t, log, longer, key, at, rs);
    LateReachesIff(t, log, longer, key, at, rs);
    assert Reaches(r, longer, key, Last(r).at) == Reaches(t, longer, key, Last(t).at);
  }

  lemma LateReachesIff(t: seq<Bucket>, log: seq<Entry>, longer: seq<Entry>, key: string, at: int, rs: seq<Device>)
    requires t != [] && Reaches(t, log, key, Last(t).at) && NoneAfter(log, key, Last(t).at) && at < Last(t).at
    requires rs != [] && Adds(log, longer, key, at, rs)
    ensures NoneAfter(longer, key, Last(t).at)
    ensures Reaches(t, longer, key, Last(t).at) <==> t[0].at <= at || at <= Last(t).at - SIGNAL_BUCKETS
  {
    assert Entry(key, at, rs[0]) in longer;
  }

  lemma OneIsAdded(log: seq<Entry>, key: string, at: int, d: Device)
    ensures Adds(log, log + [Entry(key, at, d)], key, at, [d])
  {
    var e := Entry(key, at, d);
    forall m
      ensures ReadingsOf(log + [e], key, m) == ReadingsOf(log, key, m) + if m == at then [d] else []
    {
      LogGrows(log, e, key, m);
    }
  }

  lemma OneIsAddedTo(b: Bucket, d: Device)
    ensures AddAll(b, [d]) == AddTo(b, d)
    ensures Rssis([d]) == if d.rssi.Some? then [d.rssi.value] else []
    ensures LastQuality([d]) == if d.linkQuality.Some? then d.linkQuality.value else 0
    ensures HasQuality([d]) <==> d.linkQuality.Some?
  {
    assert [d][..0] == [];
    assert [] + [d] == [d];
    RssisGrow([], d);
    QualityGrows([], d);
  }

  /** A reading with an RSSI is filed rightly if and only if its minute is not before the trail's end. */
  lemma MeasuredIsFiledIff(t: seq<Bucket>, log: seq<Entry>, key: string, before: int, at: int, d: Device)
    requires Tracks(t, log, key, before) && Last(t).at == before && d.rssi.Some?
    ensures var r, after := Added(Advanced(t, at), d), log + [Entry(key, at, d)];
            && (AllSummarise(r, after, key) <==> before <= at)
            && (Tracks(r, after, key, Last(r).at) <==> before <= at)
  {
    OneIsAdded(log, key, at, d);
    OneIsAddedTo(Last(Advanced(t, at)), d);
    FiledIff(t, log, log + [Entry(key, at, d)], key, at, [d]);
    if at < before {
      LateSummariseIff(t, log, log + [Entry(key, at, d)], key, at, [d]);
    }
  }

  /** The reading would leave the bucket as it is. */
  predicate Agrees(b: Bucket, d: Device) {
    b.present && (d.linkQuality.Some? ==> d.linkQuality.value == b.quality)
  }

  /**
   A reading without an RSSI may also come before the trail's end, if it leaves the last bucket as
   it is, and either that of its own minute too or its minute is before the trail and the window.
   */
  lemma UnmeasuredIsFiledIff(t: seq<Bucket>, log: seq<Entry>, key: string, before: int, at: int, d: Device)
    requires Tracks(t, log, key, before) && Last(t).at == before && d.rssi.None?
    ensures var r, after := Added(Advanced(t, at), d), log + [Entry(key, at, d)];
            && (AllSummarise(r, after, key) <==>
                  before <= at || (Agrees(Last(t), d) && (t[0].at <= at ==> Agrees(t[at - t[0].at], d))))
            && (Tracks(r, after, key, Last(r).at) <==>
                  || before <= at
                  || (Agrees(Last(t), d)
                      && if t[0].at <= at then Agrees(t[at - t[0].at], d) else at <= before - SIGNAL_BUCKETS))
  {
    OneIsAdded(log, key, at, d);
    OneIsAddedTo(Last(Advanced(t, at)), d);
    FiledIff(t, log, log + [Entry(key, at, d)], key, at, [d]);
    if at < before {
      LateSummariseIff(t, log, log + [Entry(key, at, d)], key, at, [d]);
    } else {
      AdvanceTracks(t, log, key, at);
      AddTracks(Advanced(t, at), log, key, at, d);
    }
  }

  // ---------------------------------------------------------------- the whole store

  /** Every trail stands for its device's log up to the trail's own end, wherever the clock is. */
  ghost predicate Tracked(trails: Trails, log: seq<Entry>) {
    && |trails| <= SIGNAL_MAX_TRAILS
    && forall key :: key in trails ==> trails[key] != [] && Tracks(trails[key], log, key, Last(trails[key]).at)
  }

  /** The readings of a device that a recording accepts, in the order of their rows. */
  function Rows(trails: Trails, items: seq<Device>, at: int, key: string): seq<Device> {
    ReadingsOf(Accepted(trails, items, at), key, at)
  }

  /** The logged readings of the device in the window are all of minute `at`, where a new bucket can stand for them. */
  ghost predicate Reopens(log: seq<Entry>, key: string, rs: seq<Device>, at: int) {
    && (forall e :: e in log && e.key == key && e.minute > at - SIGNAL_BUCKETS ==> e.minute == at)
    && Restarts(ReadingsOf(log, key, at), rs)
  }

  /**
   Rows suit a device: its trail does not end later or does not notice them, or it has no
   trail and may be given one.
   */
  ghost predicate Suits(trails: Trails, log: seq<Entry>, key: string, rs: seq<Device>, at: int) {
    if key in trails then
      InOrder(trails[key]) && (Last(trails[key]).at <= at || Unnoticed(trails[key], rs, at))
    else Reopens(log, key, rs, at)
  }

  ghost predicate AllSuit(trails: Trails, log: seq<Entry>, items: seq<Device>, at: int) {
    forall e :: e in Accepted(trails, items, at) ==> Suits(trails, log, e.key, Rows(trails, items, at, e.key), at)
  }

  lemma AdvancedReaches(t: seq<Bucket>, at: int)
    ensures Last(Advanced(t, at)).at >= at && Advanced(Advanced(t, at), at) == Advanced(t, at)
  {
  }

  lemma RowsGrow(trails: Trails, front: seq<Device>, d: Device, at: int, key: string)
    ensures Rows(trails, front + [d], at, key) ==
            if Accepts(RecordDevices(trails, front, at), d) && key == Key(d) then Rows(trails, front, at, key) + [d]
            else Rows(trails, front, at, key)
  {
    assert (front + [d])[..|front|] == front;
    LogGrows(Accepted(trails, front, at), Entry(Key(d), at, d), key, at);
  }

  /** The device's trail has taken its rows, and nothing else has happened to it. */
  predicate Gathered(trails: Trails, mid: Trails, key: string, rs: seq<Device>, at: int) {
    if rs == [] then (key in mid <==> key in trails) && TrailOf(mid, key) == TrailOf(trails, key)
    else key in mid && mid[key] == AddedAll(Advanced(TrailOf(trails, key), at), rs)
  }

  lemma OneMoreGathered(trails: Trails, mid: Trails, key: string, rs: seq<Device>, d: Device, at: int)
    requires Gathered(trails, mid, key, rs, at) && Accepts(mid, d) && key == Key(d)
    ensures Gathered(trails, RecordDevice(mid, d, at), key, rs + [d], at)
  {
    OneMoreAdded(TrailOf(trails, key), rs, d, at);
    assert [] + [d] == [d];
  }

  lemma OneMoreAdded(t: seq<Bucket>, rs: seq<Device>, d: Device, at: int)
    ensures var moved := Advanced(t, at);
            && Added(Advanced(AddedAll(moved, rs), at), d) == AddedAll(moved, rs + [d])
            && Added(moved, d) == AddedAll(moved, [d])
  {
    var moved := Advanced(t, at);
    AdvancedReaches(t, at);
    AddAllCounts(Last(moved), rs);
    OneIsAddedTo(Last(moved), d);
    assert Advanced(AddedAll(moved, rs), at) == AddedAll(moved, rs);
    assert (rs + [d])[..|rs|] == rs;
  }

  /** What the rows of a recording do to one device: only its accepted ones matter, and they go in one by one. */
  lemma {:induction false} RowsAreGathered(trails: Trails, items: seq<Device>, at: int, key: string)
    ensures Gathered(trails, RecordDevices(trails, items, at), key, Rows(trails, items, at, key), at)
  {
    if items != [] {
      var front, d := items[..|items| - 1], items[|items| - 1];
      assert items == front + [d];
      RowsAreGathered(trails, front, at, key);
      RowsGrow(trails, front, d, at, key);
      var mid := RecordDevices(trails, front, at);
      if Accepts(mid, d) && key == Key(d) {
        OneMoreGathered(trails, mid, key, Rows(trails, front, at, key), d, at);
      }
    }
  }

  lemma {:induction false} RowsAreSeen(trails: Trails, items: seq<Device>, at: int, key: string)
    requires Rows(trails, items, at, key) != []
    ensures key in Seen(items)
  {
    var front, d := items[..|items| - 1], items[|items| - 1];
    assert items == front + [d];
    RowsGrow(trails, front, d, at, key);
    SeenLast(items);
    if Rows(trails, front, at, key) != [] {
      RowsAreSeen(trails, front, at, key);
    }
  }

  lemma {:induction false} AcceptedAreAt(trails: Trails, items: seq<Device>, at: int)
    ensures forall e :: e in Accepted(trails, items, at) ==> e.minute == at
  {
    if items != [] {
      AcceptedAreAt(trails, items[..|items| - 1], at);
    }
  }

  lemma {:induction false} ReadingsOfJoin(log: seq<Entry>, more: seq<Entry>, key: string, m: int)
    ensures ReadingsOf(log + more, key, m) == ReadingsOf(log, key, m) + ReadingsOf(more, key, m)
  {
    if more == [] {
      assert log + more == log;
    } else {
      var front, e := more[..|more| - 1], more[|more| - 1];
      ReadingsOfJoin(log, front, key, m);
      assert log + more == (log + front) + [e];
      assert more == front + [e];
      LogGrows(log + front, e, key, m);
      LogGrows(front, e, key, m);
    }
  }

  lemma {:induction false} ReadIsLogged(log: seq<Entry>, key: string, m: int, d: Device)
    requires d in ReadingsOf(log, key, m)
    ensures Entry(key, m, d) in log
  {
    var e := log[|log| - 1];
    if e != Entry(key, m, d) {
      ReadIsLogged(log[..|log| - 1], key, m, d);
    }
  }

  lemma RowsAreLogged(trails: Trails, log: seq<Entry>, items: seq<Device>, at: int, key: string)
    ensures Adds(log, log + Accepted(trails, items, at), key, at, Rows(trails, items, at, key))
  {
    var more, rs := Accepted(trails, items, at), Rows(trails, items, at, key);
    AcceptedAreAt(trails, items, at);
    forall m
      ensures ReadingsOf(log + more, key, m) == ReadingsOf(log, key, m) + if m == at then rs else []
    {
      ReadingsOfJoin(log, more, key, m);
      if m != at {
        NoReadings(more, key, m);
      }
    }
    forall e: Entry | e.key == key
      ensures e in more <==> e.minute == at && e.reading in rs
    {
      if e in more {
        LoggedIsRead(more, e);
      }
      if e.minute == at && e.reading in rs {
        ReadIsLogged(more, key, at, e.reading);
      }
    }
  }

  /** A device without a trail, given one. */
  lemma ReopenedIff(log: seq<Entry>, longer: seq<Entry>, key: string, at: int, rs: seq<Device>)
    requires rs != [] && Adds(log, longer, key, at, rs)
    ensures var r := AddedAll([Blank(at)], rs);
            Tracks(r, longer, key, Last(r).at) <==> Reopens(log, key, rs, at)
  {
    var r := AddedAll([Blank(at)], rs);
    AddAllCounts(Blank(at), rs);
    RestartedIff(at, ReadingsOf(log, key, at), rs);
    assert AllSummarise(r, longer, key) <==> Restarts(ReadingsOf(log, key, at), rs) by {
      assert r[0].at == at;
    }
    if forall e :: e in log && e.key == key && e.minute > at - SIGNAL_BUCKETS ==> e.minute == at {
      assert NoneAfter(longer, key, at) && Reaches(r, longer, key, at);
    } else {
      var e :| e in log && e.key == key && e.minute > at - SIGNAL_BUCKETS && e.minute != at;
      assert e in longer;
    }
  }

  /** At the end of the recording, one device. */
  lemma DeviceTracksIff(trails: Trails, log: seq<Entry>, items: seq<Device>, at: int, key: string)
    requires Tracked(trails, log)
    ensures var rs := Rows(trails, items, at, key);
            var r, after := Record(trails, items, at), log + Accepted(trails, items, at);
            && (rs != [] ==> key in r)
            && (key in r ==> r[key] != [])
            && (key in r ==> (Tracks(r[key], after, key, Last(r[key]).at) <==>
                                (rs != [] ==> Suits(trails, log, key, rs, at))))
  {
    var rs, mid, after := Rows(trails, items, at, key), RecordDevices(trails, items, at),
                          log + Accepted(trails, items, at);
    RowsAreGathered(trails, items, at, key);
    RowsAreLogged(trails, log, items, at, key);
    if rs != [] {
      RowsAreSeen(trails, items, at, key);
      if key in trails {
        FiledIff(trails[key], log, after, key, at, rs);
      } else {
        ReopenedIff(log, after, key, at, rs);
      }
    } else if key in mid {
      UntouchedTracks(trails[key], log, after, key, at);
    }
  }

  /** A device no row was accepted of: its trail may still move on. */
  lemma UntouchedTracks(t: seq<Bucket>, log: seq<Entry>, longer: seq<Entry>, key: string, at: int)
    requires t != [] && Tracks(t, log, key, Last(t).at) && Adds(log, longer, key, at, [])
    ensures Tracks(t, longer, key, Last(t).at)
    ensures Tracks(Advanced(t, at), longer, key, Last(Advanced(t, at)).at)
  {
    forall i | 0 <= i < |t|
      ensures Summarises(t[i], ReadingsOf(longer, key, t[i].at))
    {
      assert ReadingsOf(log, key, t[i].at) + [] == ReadingsOf(log, key, t[i].at);
    }
    if Last(t).at < at {
      AdvanceTracks(t, longer, key, at);
    }
  }

  /**
   On any clock and for any rows: a recording keeps every trail a summary of its
   device's log if and only if it suits every device it accepts a row of.
   */
  lemma RecordTracksIff(trails: Trails, log: seq<Entry>, items: seq<Device>, at: int)
    requires Tracked(trails, log)
    ensures Tracked(Record(trails, items, at), log + Accepted(trails, items, at)) <==> AllSuit(trails, log, items, at)
  {
    var r, accepted := Record(trails, items, at), Accepted(trails, items, at);
    RecordBounded(trails, items, at);
    AcceptedAreAt(trails, items, at);
    forall e | e in accepted
      ensures Rows(trails, items, at, e.key) != []
      ensures e.key in r && r[e.key] != []
      ensures Tracks(r[e.key], log + accepted, e.key, Last(r[e.key]).at) <==>
              Suits(trails, log, e.key, Rows(trails, items, at, e.key), at)
    {
      LoggedIsRead(accepted, e);
      DeviceTracksIff(trails, log, items, at, e.key);
    }
    if AllSuit(trails, log, items, at) {
      forall key | key in r
        ensures r[key] != [] && Tracks(r[key], log + accepted, key, Last(r[key]).at)
      {
        DeviceTracksIff(trails, log, items, at, key);
        if Rows(trails, items, at, key) != [] {
          HasReadings(accepted, key, at);
        }
      }
    }
  }

  /**
   So when the clock steps back to an earlier minute for the first time: the trails stay
   right if and only if those there are do not notice, and the others may be given one.
   */
  lemma StepBackIff(trails: Trails, log: seq<Entry>, before: int, items: seq<Device>, at: int)
    requires Refines(trails, log, before) && at < before
    ensures Tracked(Record(trails, items, at), log + Accepted(trails, items, at)) <==>
            forall e :: e in Accepted(trails, items, at) ==>
              var rs := Rows(trails, items, at, e.key);
              if e.key in trails then Unnoticed(trails[e.key], rs, at) else Reopens(log, e.key, rs, at)
  {
    RecordTracksIff(trails, log, items, at);
  }

  /** A row with an RSSI is always noticed. */
  lemma MeasuredIsNoticed(t: seq<Bucket>, rs: seq<Device>, d: Device, at: int)
    requires InOrder(t) && at < Last(t).at && d in rs && d.rssi.Some?
    ensures !Unnoticed(t, rs, at)
  {
    MeasuredIsRead(rs, d);
  }

  lemma {:induction false} MeasuredIsRead(rs: seq<Device>, d: Device)
    requires d in rs && d.rssi.Some?
    ensures Rssis(rs) != []
  {
    if rs[|rs| - 1] != d {
      MeasuredIsRead(rs[..|rs| - 1], d);
    }
  }

  // ---------------------------------------------------------------- whole runs

  /** The trails are right after the run and after every shorter one. */
  ghost predicate AlwaysTracked(calls: seq<Call>) {
    Tracked(Run(calls), Log(calls)) && (calls != [] ==> AlwaysTracked(calls[..|calls| - 1]))
  }

  /** Every recording of the run suited every device it took. */
  ghost predicate AlwaysSuited(calls: seq<Call>) {
    calls != [] ==>
      var front, call := calls[..|calls| - 1], calls[|calls| - 1];
      AlwaysSuited(front) && AllSuit(Run(front), Log(front), call.items, Minute(call.now))
  }

  /**
   Over any run on any clock: the trails summarise their logs after every recording if
   and only if every recording suited every device it took.
   */
  lemma {:induction false} RunTracksIff(calls: seq<Call>)
    ensures AlwaysTracked(calls) <==> AlwaysSuited(calls)
  {
    if calls != [] {
      var front, call := calls[..|calls| - 1], calls[|calls| - 1];
      RunTracksIff(front);
      if Tracked(Run(front), Log(front)) {
        RecordTracksIff(Run(front), Log(front), call.items, Minute(call.now));
      }
    }
  }

  /** In particular, minutes that never go back always suit. */
  lemma {:induction false} GoodClockSuits(calls: seq<Call>)
    requires MinutesNeverGoBack(calls)
    ensures AlwaysTracked(calls) && AlwaysSuited(calls)
  {
    if calls != [] {
      GoodClockSuits(calls[..|calls| - 1]);
      RunRefines(calls);
    }
    RunTracksIff(calls);
  }

  // ---------------------------------------------------------------- a clock that does step back

  /** One device recorded at minute 10 and then at minute 5. */
  function Twice(d: Device): seq<Call> {
    [Call([d], 10 * NANOSECONDS_PER_BUCKET), Call([d], 5 * NANOSECONDS_PER_BUCKET)]
  }

  function TrailAfterOne(d: Device): seq<Bucket> { [AddTo(Blank(10), d)] }

  lemma TwiceRecorded(d: Device)
    requires d.extendedAddress == "01"
    ensures Run(Twice(d)) == map["01" := Added(Advanced(TrailAfterOne(d), 5), d)]
    ensures Log(Twice(d)) == [Entry("01", 10, d)] + [Entry("01", 5, d)]
    ensures Tracks(TrailAfterOne(d), [Entry("01", 10, d)], "01", 10) && Last(TrailAfterOne(d)).at == 10
  {
    var one, two := Twice(d)[0], Twice(d)[1];
    assert Key(d) == "01" && Minute(one.now) == 10 && Minute(two.now) == 5;
    RunOne([], one);
    RecordOne(map[], d, 10);
    assert Added(Advanced(TrailOf(map[], "01"), 10), d) == TrailAfterOne(d);
    assert Run([] + [one]) == map["01" := TrailAfterOne(d)] && Log([] + [one]) == [Entry("01", 10, d)];
    RunOne([] + [one], two);
    RecordOne(map["01" := TrailAfterOne(d)], d, 5);
    assert [] + [one] + [two] == Twice(d);
    FreshTracks([], "01", 10);
    AddTracks([Blank(10)], [], "01", 10, d);
    assert [] + [Entry("01", 10, d)] == [Entry("01", 10, d)];
  }

  /** With an RSSI the second reading is filed under the first one's minute. */
  lemma BackwardClockMisfiles()
    ensures var calls := Twice(Device("01", None, Some(-40)));
            !Refines(Run(calls), Log(calls), 10) && !Tracked(Run(calls), Log(calls))
  {
    var d := Device("01", None, Some(-40));
    TwiceRecorded(d);
    MeasuredIsFiledIff(TrailAfterOne(d), [Entry("01", 10, d)], "01", 10, 5, d);
  }

  /**
   Without one every bucket still says what the log does, but the log has a reading five
   minutes before the trail begins.
   */
  lemma BackwardClockForgets()
    ensures var calls := Twice(Device("01", None, None));
            && "01" in Run(calls) && AllSummarise(Run(calls)["01"], Log(calls), "01")
            && !Tracked(Run(calls), Log(calls))
  {
    var d := Device("01", None, None);
    TwiceRecorded(d);
    UnmeasuredIsFiledIff(TrailAfterOne(d), [Entry("01", 10, d)], "01", 10, 5, d);
  }
}
