/**
 The signal trail as values (internal/service/signal.go): what one recording does
 to the stored trails, the unbounded log of accepted readings it is meant to
 summarise, and the proof that the trails always summarise that log.
 */
module SignalSpec {
  import opened Wrappers
  import opened Text

  const SIGNAL_BUCKETS: nat := 120
  const SIGNAL_MAX_TRAILS: nat := 256
  const NANOSECONDS_PER_BUCKET: nat := 60_000_000_000

  /** One inventory row, as far as the trail looks at it. */
  datatype Device = Device(extendedAddress: string, linkQuality: Option<int>, rssi: Option<int>)

  /** A minute of one device. `at` is the number of the minute. */
  datatype Bucket = Bucket(at: int, count: nat, sum: int, min: int, max: int, quality: int, present: bool)

  type Trails = map<string, seq<Bucket>>

  function Minute(nanoseconds: int): int { nanoseconds / NANOSECONDS_PER_BUCKET }

  function Blank(at: int): Bucket { Bucket(at, 0, 0, 0, 0, 0, false) }

  function Last(t: seq<Bucket>): Bucket
    requires t != []
  {
    t[|t| - 1]
  }

  function Key(device: Device): string { ToLower(device.extendedAddress) }

  // ---------------------------------------------------------------- what the code does

  /** The trail moved on to `at`: blank minutes in between, and the newest 120 of all kept. */
  function Advanced(t: seq<Bucket>, at: int): (r: seq<Bucket>)
    ensures r != []
  {
    if t == [] then [Blank(at)]
    else if at <= Last(t).at then t
    else if at - Last(t).at > SIGNAL_BUCKETS then [Blank(at)]
    else Newest(t + Blanks(Last(t).at + 1, at))
  }

  /** Blank minutes from `first` to `last`, both included. */
  function Blanks(first: int, last: int): (r: seq<Bucket>)
    requires first <= last + 1
    ensures |r| == last + 1 - first && forall i :: 0 <= i < |r| ==> r[i] == Blank(first + i)
    decreases last + 1 - first
  {
    if first > last then [] else Blanks(first, last - 1) + [Blank(last)]
  }

  function Newest(t: seq<Bucket>): seq<Bucket> {
    if |t| > SIGNAL_BUCKETS then t[|t| - SIGNAL_BUCKETS..] else t
  }

  function AddTo(b: Bucket, device: Device): Bucket {
    var quality := if device.linkQuality.Some? then device.linkQuality.value else b.quality;
    var seen := b.(present := true, quality := quality);
    if device.rssi.None? then seen
    else
      var rssi := device.rssi.value;
      seen.(min := if b.count == 0 || rssi < b.min then rssi else b.min,
            max := if b.count == 0 || rssi > b.max then rssi else b.max,
            sum := b.sum + rssi,
            count := b.count + 1)
  }

  function Added(t: seq<Bucket>, device: Device): seq<Bucket>
    requires t != []
  {
    t[|t| - 1 := AddTo(Last(t), device)]
  }

  predicate Empty(t: seq<Bucket>) {
    forall i :: 0 <= i < |t| ==> !t[i].present
  }

  /** Whether a row is taken: it is named, and has a trail or a free slot. */
  predicate Accepts(trails: Trails, device: Device) {
    Key(device) != "" && (Key(device) in trails || |trails| < SIGNAL_MAX_TRAILS)
  }

  function TrailOf(trails: Trails, key: string): seq<Bucket> {
    if key in trails then trails[key] else []
  }

  function RecordDevice(trails: Trails, device: Device, at: int): Trails {
    if Accepts(trails, device) then
      trails[Key(device) := Added(Advanced(TrailOf(trails, Key(device)), at), device)]
    else trails
  }

  function RecordDevices(trails: Trails, items: seq<Device>, at: int): Trails {
    if items == [] then trails
    else RecordDevice(RecordDevices(trails, items[..|items| - 1], at), items[|items| - 1], at)
  }

  function Seen(items: seq<Device>): set<string> {
    set i | 0 <= i < |items| && Key(items[i]) != "" :: Key(items[i])
  }

  /**
   A trail at the end of a recording: one of a device not in the inventory moves on too,
   and goes once nothing in it is present.
   */
  function Settled(t: seq<Bucket>, seen: bool, at: int): Option<seq<Bucket>> {
    if seen then Some(t)
    else if Empty(Advanced(t, at)) then None
    else Some(Advanced(t, at))
  }

  function Settle(trails: Trails, seen: set<string>, at: int): Trails {
    map key | key in trails && Settled(trails[key], key in seen, at).Some? ::
      Settled(trails[key], key in seen, at).value
  }

  function Record(trails: Trails, items: seq<Device>, at: int): Trails {
    Settle(RecordDevices(trails, items, at), Seen(items), at)
  }

  // ---------------------------------------------------------------- the log

  /** An accepted reading: which device, in which minute, what it said. */
  datatype Entry = Entry(key: string, minute: int, reading: Device)

  /** The readings `items` adds to the log when recorded at `at`. */
  function Accepted(trails: Trails, items: seq<Device>, at: int): seq<Entry> {
    if items == [] then []
    else
      var front, device := items[..|items| - 1], items[|items| - 1];
      var before := Accepted(trails, front, at);
      if Accepts(RecordDevices(trails, front, at), device) then before + [Entry(Key(device), at, device)] else before
  }

  /** The readings of one device in one minute, oldest first. */
  function ReadingsOf(log: seq<Entry>, key: string, minute: int): seq<Device> {
    if log == [] then []
    else
      var e := log[|log| - 1];
      var before := ReadingsOf(log[..|log| - 1], key, minute);
      if e.key == key && e.minute == minute then before + [e.reading] else before
  }

  function Rssis(readings: seq<Device>): seq<int> {
    if readings == [] then []
    else
      var rssi := readings[|readings| - 1].rssi;
      var before := Rssis(readings[..|readings| - 1]);
      if rssi.Some? then before + [rssi.value] else before
  }

  function Sum(values: seq<int>): int {
    if values == [] then 0 else Sum(values[..|values| - 1]) + values[|values| - 1]
  }

  function LastQuality(readings: seq<Device>): int {
    if readings == [] then 0
    else if readings[|readings| - 1].linkQuality.Some? then readings[|readings| - 1].linkQuality.value
    else LastQuality(readings[..|readings| - 1])
  }

  predicate IsLeast(v: int, values: seq<int>) { v in values && forall w :: w in values ==> v <= w }
  predicate IsGreatest(v: int, values: seq<int>) { v in values && forall w :: w in values ==> v >= w }

  /** A bucket says of its minute exactly what the log says. */
  predicate Summarises(b: Bucket, readings: seq<Device>) {
    var rssis := Rssis(readings);
    && (b.present <==> readings != [])
    && b.count == |rssis|
    && b.sum == Sum(rssis)
    && (rssis != [] ==> IsLeast(b.min, rssis) && IsGreatest(b.max, rssis))
    && b.quality == LastQuality(readings)
  }

  // ---------------------------------------------------------------- one trail and its log

  predicate InOrder(t: seq<Bucket>) {
    t != [] && forall i :: 0 <= i < |t| ==> t[i].at == t[0].at + i
  }

  /** One to 120 buckets of consecutive minutes. */
  predicate Consecutive(t: seq<Bucket>) { InOrder(t) && |t| <= SIGNAL_BUCKETS }

  ghost predicate AllSummarise(t: seq<Bucket>, log: seq<Entry>, key: string) {
    forall i :: 0 <= i < |t| ==> Summarises(t[i], ReadingsOf(log, key, t[i].at))
  }

  /** Every logged reading of the device is at most as late as `minute`. */
  ghost predicate NoneAfter(log: seq<Entry>, key: string, minute: int) {
    forall e :: e in log && e.key == key ==> e.minute <= minute
  }

  /** The trail reaches back to every reading of the device in the window ending at `at`. */
  ghost predicate Reaches(t: seq<Bucket>, log: seq<Entry>, key: string, at: int)
    requires t != []
  {
    forall e :: e in log && e.key == key && e.minute > at - SIGNAL_BUCKETS ==> t[0].at <= e.minute
  }

  /** A trail that stands for a device's log up to minute `at`, though it may not have moved on to `at` yet. */
  ghost predicate Tracks(t: seq<Bucket>, log: seq<Entry>, key: string, at: int) {
    && Consecutive(t)
    && Last(t).at <= at
    && AllSummarise(t, log, key)
    && NoneAfter(log, key, Last(t).at)
    && Reaches(t, log, key, at)
  }

  lemma {:induction false} NoReadings(log: seq<Entry>, key: string, minute: int)
    requires forall e :: e in log && e.key == key ==> e.minute != minute
    ensures ReadingsOf(log, key, minute) == []
  {
    if log != [] {
      var e := log[|log| - 1];
      assert e in log;
      NoReadings(log[..|log| - 1], key, minute);
    }
  }

  lemma {:induction false} HasReadings(log: seq<Entry>, key: string, minute: int)
    requires ReadingsOf(log, key, minute) != []
    ensures exists e :: e in log && e.key == key && e.minute == minute
  {
    var e := log[|log| - 1];
    assert e in log;
    if !(e.key == key && e.minute == minute) {
      HasReadings(log[..|log| - 1], key, minute);
      var d :| d in log[..|log| - 1] && d.key == key && d.minute == minute;
      assert d in log;
    }
  }

  lemma LogGrows(log: seq<Entry>, e: Entry, key: string, minute: int)
    ensures ReadingsOf(log + [e], key, minute) ==
            if e.key == key && e.minute == minute then ReadingsOf(log, key, minute) + [e.reading]
            else ReadingsOf(log, key, minute)
  {
    assert (log + [e])[..|log|] == log;
  }

  lemma RssisGrow(readings: seq<Device>, device: Device)
    ensures Rssis(readings + [device]) ==
            if device.rssi.Some? then Rssis(readings) + [device.rssi.value] else Rssis(readings)
    ensures LastQuality(readings + [device]) ==
            if device.linkQuality.Some? then device.linkQuality.value else LastQuality(readings)
  {
    assert (readings + [device])[..|readings|] == readings;
  }

  lemma ExtremesGrow(values: seq<int>, v: int, least: int, greatest: int)
    requires values != [] ==> IsLeast(least, values) && IsGreatest(greatest, values)
    ensures IsLeast(if values == [] || v < least then v else least, values + [v])
    ensures IsGreatest(if values == [] || v > greatest then v else greatest, values + [v])
  {
    assert v in values + [v];
    if values != [] {
      assert least in values + [v] && greatest in values + [v];
    }
  }

  lemma SumGrows(values: seq<int>, v: int)
    ensures Sum(values + [v]) == Sum(values) + v
  {
    assert (values + [v])[..|values|] == values;
  }

  lemma AddSummarises(b: Bucket, readings: seq<Device>, device: Device)
    requires Summarises(b, readings)
    ensures Summarises(AddTo(b, device), readings + [device])
  {
    RssisGrow(readings, device);
    if device.rssi.Some? {
      SumGrows(Rssis(readings), device.rssi.value);
      ExtremesGrow(Rssis(readings), device.rssi.value, b.min, b.max);
    }
  }

  /** Moving a trail on keeps it true to the log and brings it to the current minute. */
  lemma AdvanceTracks(t: seq<Bucket>, log: seq<Entry>, key: string, at: int)
    requires Tracks(t, log, key, at)
    ensures Tracks(Advanced(t, at), log, key, at) && Last(Advanced(t, at)).at == at
  {
    var last := Last(t).at;
    if at - last > SIGNAL_BUCKETS {
      FreshTracks(log, key, at);
    } else if at > last {
      ExtendSummarises(t, log, key, at);
      NewestSummarises(t + Blanks(last + 1, at), log, key);
    }
  }

  lemma ExtendSummarises(t: seq<Bucket>, log: seq<Entry>, key: string, at: int)
    requires InOrder(t) && AllSummarise(t, log, key) && NoneAfter(log, key, Last(t).at) && Last(t).at < at
    ensures var long := t + Blanks(Last(t).at + 1, at);
            InOrder(long) && AllSummarise(long, log, key) && long[0] == t[0] && Last(long).at == at
  {
    var long := t + Blanks(Last(t).at + 1, at);
    forall i | |t| <= i < |long|
      ensures Summarises(long[i], ReadingsOf(log, key, long[i].at))
    {
      assert long[i] == Blank(Last(t).at + 1 + (i - |t|));
      NoReadings(log, key, long[i].at);
    }
  }

  lemma NewestSummarises(long: seq<Bucket>, log: seq<Entry>, key: string)
    requires InOrder(long) && AllSummarise(long, log, key)
    ensures var t := Newest(long);
            && Consecutive(t) && AllSummarise(t, log, key) && Last(t) == Last(long)
            && (t[0] == long[0] || t[0].at == Last(long).at - SIGNAL_BUCKETS + 1)
  {
    var drop := if |long| > SIGNAL_BUCKETS then |long| - SIGNAL_BUCKETS else 0;
    var t := Newest(long);
    assert t == long[drop..];
    assert forall i :: 0 <= i < |t| ==> t[i] == long[drop + i];
  }

  /** A new trail is true to a log that has nothing of the device in the window. */
  lemma FreshTracks(log: seq<Entry>, key: string, at: int)
    requires NoneAfter(log, key, at - SIGNAL_BUCKETS)
    ensures Tracks([Blank(at)], log, key, at)
  {
    NoReadings(log, key, at);
  }

  /** Adding a reading to the bucket of the current minute is appending it to the log. */
  lemma AddTracks(t: seq<Bucket>, log: seq<Entry>, key: string, at: int, device: Device)
    requires Tracks(t, log, key, at) && Last(t).at == at
    ensures Tracks(Added(t, device), log + [Entry(key, at, device)], key, at)
  {
    var r, e := Added(t, device), Entry(key, at, device);
    forall i | 0 <= i < |r|
      ensures r[i].at == t[i].at && Summarises(r[i], ReadingsOf(log + [e], key, r[i].at))
    {
      AddSummarisesAt(t, log, key, at, device, i);
    }
  }

  lemma AddSummarisesAt(t: seq<Bucket>, log: seq<Entry>, key: string, at: int, device: Device, i: nat)
    requires Consecutive(t) && Last(t).at == at && i < |t|
    requires Summarises(t[i], ReadingsOf(log, key, t[i].at))
    ensures var r := Added(t, device);
            r[i].at == t[i].at && Summarises(r[i], ReadingsOf(log + [Entry(key, at, device)], key, r[i].at))
  {
    LogGrows(log, Entry(key, at, device), key, t[i].at);
    if i == |t| - 1 {
      AddSummarises(t[i], ReadingsOf(log, key, at), device);
    } else {
      assert t[i].at != at;
    }
  }

  lemma OtherTracks(t: seq<Bucket>, log: seq<Entry>, key: string, at: int, e: Entry)
    requires Tracks(t, log, key, at) && e.key != key
    ensures Tracks(t, log + [e], key, at)
  {
    forall i | 0 <= i < |t|
      ensures Summarises(t[i], ReadingsOf(log + [e], key, t[i].at))
    {
      LogGrows(log, e, key, t[i].at);
    }
  }

  // ---------------------------------------------------------------- the whole store

  /** Every stored trail tracks its device, and a device without one has nothing in the window. */
  ghost predicate AllTrack(trails: Trails, log: seq<Entry>, at: int) {
    && |trails| <= SIGNAL_MAX_TRAILS
    && (forall key :: key in trails ==> Tracks(trails[key], log, key, at))
    && (forall key :: key !in trails ==> NoneAfter(log, key, at - SIGNAL_BUCKETS))
  }

  /** The store between two recordings: everything tracked, every trail ends now and holds something. */
  ghost predicate Refines(trails: Trails, log: seq<Entry>, at: int) {
    && AllTrack(trails, log, at)
    && forall key :: key in trails ==> Last(trails[key]).at == at && !Empty(trails[key])
  }

  lemma LaterTracks(trails: Trails, log: seq<Entry>, before: int, at: int)
    requires AllTrack(trails, log, before) && before <= at
    ensures AllTrack(trails, log, at)
  {
  }

  lemma PutTracks(trails: Trails, log: seq<Entry>, t: seq<Bucket>, e: Entry, at: int)
    requires AllTrack(trails, log, at) && e.minute == at
    requires e.key in trails || |trails| < SIGNAL_MAX_TRAILS
    requires Tracks(t, log + [e], e.key, at)
    ensures AllTrack(trails[e.key := t], log + [e], at)
  {
    var r := trails[e.key := t];
    forall key
      ensures key in r ==> Tracks(r[key], log + [e], key, at)
      ensures key !in r ==> NoneAfter(log + [e], key, at - SIGNAL_BUCKETS)
    {
      if key in trails && key != e.key {
        OtherTracks(trails[key], log, key, at, e);
      }
    }
    assert r.Keys == trails.Keys + {e.key};
  }

  /** The trail of an accepted row: brought to the current minute and given the reading. */
  function Taken(trails: Trails, device: Device, at: int): seq<Bucket> {
    Added(Advanced(TrailOf(trails, Key(device)), at), device)
  }

  lemma TakenTracks(trails: Trails, log: seq<Entry>, device: Device, at: int)
    requires AllTrack(trails, log, at)
    ensures var t := Taken(trails, device, at);
            Tracks(t, log + [Entry(Key(device), at, device)], Key(device), at) && Fresh(t, at)
  {
    var key := Key(device);
    if key in trails {
      AdvanceTracks(trails[key], log, key, at);
    } else {
      FreshTracks(log, key, at);
    }
    AddTracks(Advanced(TrailOf(trails, key), at), log, key, at, device);
  }

  lemma RecordDeviceTracks(trails: Trails, log: seq<Entry>, device: Device, at: int)
    requires AllTrack(trails, log, at) && Accepts(trails, device)
    ensures AllTrack(RecordDevice(trails, device, at), log + [Entry(Key(device), at, device)], at)
  {
    TakenTracks(trails, log, device, at);
    PutTracks(trails, log, Taken(trails, device, at), Entry(Key(device), at, device), at);
  }

  /** During a recording, a trail whose device was seen ends now with a present bucket. */
  predicate Fresh(t: seq<Bucket>, at: int) { t != [] && Last(t).at == at && Last(t).present }

  predicate AllFresh(trails: Trails, seen: set<string>, at: int) {
    forall key :: key in trails && key in seen ==> Fresh(trails[key], at)
  }

  lemma {:induction false} RecordDevicesTracks(trails: Trails, log: seq<Entry>, items: seq<Device>, at: int)
    requires AllTrack(trails, log, at)
    ensures AllTrack(RecordDevices(trails, items, at), log + Accepted(trails, items, at), at)
  {
    if items == [] {
      assert log + [] == log;
    } else {
      var front, device := items[..|items| - 1], items[|items| - 1];
      RecordDevicesTracks(trails, log, front, at);
      var mid, soFar := RecordDevices(trails, front, at), log + Accepted(trails, front, at);
      AcceptedLast(trails, log, items, at);
      if Accepts(mid, device) {
        RecordDeviceTracks(mid, soFar, device, at);
      }
    }
  }

  lemma AcceptedLast(trails: Trails, log: seq<Entry>, items: seq<Device>, at: int)
    requires items != []
    ensures var front, device := items[..|items| - 1], items[|items| - 1];
            var soFar := log + Accepted(trails, front, at);
            log + Accepted(trails, items, at) ==
            if Accepts(RecordDevices(trails, front, at), device) then soFar + [Entry(Key(device), at, device)]
            else soFar
  {
    var front, device := items[..|items| - 1], items[|items| - 1];
    var before, e := Accepted(trails, front, at), Entry(Key(device), at, device);
    assert (log + before) + [e] == log + (before + [e]);
  }

  lemma {:induction false} RecordDevicesFresh(trails: Trails, log: seq<Entry>, items: seq<Device>, at: int)
    requires AllTrack(trails, log, at)
    ensures AllFresh(RecordDevices(trails, items, at), Seen(items), at)
  {
    if items != [] {
      var front, device := items[..|items| - 1], items[|items| - 1];
      RecordDevicesFresh(trails, log, front, at);
      RecordDevicesTracks(trails, log, front, at);
      var mid := RecordDevices(trails, front, at);
      TakenTracks(mid, log + Accepted(trails, front, at), device, at);
      SeenLast(items);
    }
  }

  lemma SeenLast(items: seq<Device>)
    requires items != []
    ensures var device := items[|items| - 1];
            forall key :: key in Seen(items) <==> key in Seen(items[..|items| - 1]) || (key != "" && key == Key(device))
  {
    var front := items[..|items| - 1];
    forall key | key in Seen(items) && key != Key(items[|items| - 1])
      ensures key in Seen(front)
    {
      var i :| 0 <= i < |items| && Key(items[i]) != "" && key == Key(items[i]);
      assert front[i] == items[i];
    }
    forall key | key in Seen(front)
      ensures key in Seen(items)
    {
      var i :| 0 <= i < |front| && Key(front[i]) != "" && key == Key(front[i]);
      assert items[i] == front[i];
    }
  }

  lemma SettleRefines(trails: Trails, log: seq<Entry>, seen: set<string>, at: int)
    requires AllTrack(trails, log, at)
    requires AllFresh(trails, seen, at)
    ensures Refines(Settle(trails, seen, at), log, at)
  {
    var r := Settle(trails, seen, at);
    SubsetSize(r.Keys, trails.Keys);
    assert |r| == |r.Keys| && |trails| == |trails.Keys|;
    forall key | key in trails
      ensures key in r ==> Tracks(r[key], log, key, at) && Last(r[key]).at == at && !Empty(r[key])
      ensures key !in r ==> NoneAfter(log, key, at - SIGNAL_BUCKETS)
    {
      AdvanceTracks(trails[key], log, key, at);
      if key !in r {
        EmptyMeansGone(Advanced(trails[key], at), log, key, at);
      }
    }
  }

  /** A trail in which nothing is present has no reading left in the window. */
  lemma EmptyMeansGone(t: seq<Bucket>, log: seq<Entry>, key: string, at: int)
    requires Tracks(t, log, key, at) && Last(t).at == at && Empty(t)
    ensures NoneAfter(log, key, at - SIGNAL_BUCKETS)
  {
    forall e | e in log && e.key == key
      ensures e.minute <= at - SIGNAL_BUCKETS
    {
      if e.minute > at - SIGNAL_BUCKETS {
        var i := e.minute - t[0].at;
        assert t[i].at == e.minute;
        LoggedIsRead(log, e);
        assert false;
      }
    }
  }

  lemma {:induction false} LoggedIsRead(log: seq<Entry>, e: Entry)
    requires e in log
    ensures e.reading in ReadingsOf(log, e.key, e.minute)
  {
    if log[|log| - 1] != e {
      LoggedIsRead(log[..|log| - 1], e);
    }
  }

  lemma SubsetSize<T>(a: set<T>, b: set<T>)
    requires a <= b
    ensures |a| <= |b|
  {
    if a != b {
      assert |b| == |a| + |b - a| by {
        assert b == a + (b - a);
      }
    }
  }

  /** One recording, at a minute not before the last one, keeps the trails a summary of the log. */
  lemma RecordRefines(trails: Trails, log: seq<Entry>, before: int, items: seq<Device>, at: int)
    requires Refines(trails, log, before) && before <= at
    ensures Refines(Record(trails, items, at), log + Accepted(trails, items, at), at)
  {
    LaterTracks(trails, log, before, at);
    RecordDevicesTracks(trails, log, items, at);
    RecordDevicesFresh(trails, log, items, at);
    SettleRefines(RecordDevices(trails, items, at), log + Accepted(trails, items, at), Seen(items), at);
  }

  // ---------------------------------------------------------------- whole runs

  /** One call of Record. */
  datatype Call = Call(items: seq<Device>, now: int)

  function Run(calls: seq<Call>): Trails {
    if calls == [] then map[]
    else Record(Run(calls[..|calls| - 1]), calls[|calls| - 1].items, Minute(calls[|calls| - 1].now))
  }

  function Log(calls: seq<Call>): seq<Entry> {
    if calls == [] then []
    else
      var front, call := calls[..|calls| - 1], calls[|calls| - 1];
      Log(front) + Accepted(Run(front), call.items, Minute(call.now))
  }

  lemma RecordOne(trails: Trails, d: Device, at: int)
    requires Accepts(trails, d) && trails.Keys <= {Key(d)}
    ensures Record(trails, [d], at) == map[Key(d) := Added(Advanced(TrailOf(trails, Key(d)), at), d)]
    ensures Accepted(trails, [d], at) == [Entry(Key(d), at, d)]
  {
    assert [d][..0] == [] && RecordDevices(trails, [d][..0], at) == trails;
    assert RecordDevices(trails, [d], at) == map[Key(d) := Added(Advanced(TrailOf(trails, Key(d)), at), d)];
    assert Key([d][0]) in Seen([d]);
    assert Accepted(trails, [d][..0], at) == [];
  }

  lemma RunOne(calls: seq<Call>, call: Call)
    ensures Run(calls + [call]) == Record(Run(calls), call.items, Minute(call.now))
    ensures Log(calls + [call]) == Log(calls) + Accepted(Run(calls), call.items, Minute(call.now))
  {
    assert (calls + [call])[..|calls|] == calls;
  }

  /** The clock may step back within a minute, never to an earlier one. */
  predicate MinutesNeverGoBack(calls: seq<Call>) {
    forall i, j :: 0 <= i < j < |calls| ==> Minute(calls[i].now) <= Minute(calls[j].now)
  }

  /**
   The trail refines the log: after any run whose minutes never go back, the stored
   trails summarise exactly the accepted readings of the last 120 minutes.
   */
  lemma {:induction false} RunRefines(calls: seq<Call>)
    requires calls != [] && MinutesNeverGoBack(calls)
    ensures Refines(Run(calls), Log(calls), Minute(calls[|calls| - 1].now))
  {
    var front, call := calls[..|calls| - 1], calls[|calls| - 1];
    var at := Minute(call.now);
    if front == [] {
      assert Refines(map[], [], at);
      RecordRefines(map[], [], at, call.items, at);
      assert [] + Accepted(map[], call.items, at) == Log(calls);
    } else {
      RunRefines(front);
      var before := Minute(front[|front| - 1].now);
      assert Minute(calls[|front| - 1].now) <= Minute(calls[|front|].now);
      RecordRefines(Run(front), Log(front), before, call.items, at);
    }
  }

  /** A device has a trail if and only if the log has an accepted reading of it in the last 120 minutes. */
  lemma StoredIffInWindow(trails: Trails, log: seq<Entry>, at: int, key: string)
    requires Refines(trails, log, at)
    ensures key in trails <==> exists e :: e in log && e.key == key && e.minute > at - SIGNAL_BUCKETS
  {
    if key in trails {
      var t := trails[key];
      var i :| 0 <= i < |t| && t[i].present;
      HasReadings(log, key, t[i].at);
      var e :| e in log && e.key == key && e.minute == t[i].at;
      assert e.minute > at - SIGNAL_BUCKETS;
    }
  }

  /**
   Whatever the clock does, there are at most 256 trails, each of one to 120 consecutive
   minutes holding something.
   */
  predicate Bounded(trails: Trails) {
    && |trails| <= SIGNAL_MAX_TRAILS
    && forall key :: key in trails ==> Consecutive(trails[key]) && !Empty(trails[key])
  }

  lemma AdvanceBounded(t: seq<Bucket>, at: int)
    requires t == [] || Consecutive(t)
    ensures Consecutive(Advanced(t, at))
  {
    if t != [] && 0 < at - Last(t).at <= SIGNAL_BUCKETS {
      var long := t + Blanks(Last(t).at + 1, at);
      assert InOrder(long);
      var drop := if |long| > SIGNAL_BUCKETS then |long| - SIGNAL_BUCKETS else 0;
      assert forall i :: 0 <= i < |Newest(long)| ==> Newest(long)[i] == long[drop + i];
    }
  }

  predicate Sized(trails: Trails) {
    && |trails| <= SIGNAL_MAX_TRAILS
    && forall key :: key in trails ==> Consecutive(trails[key])
  }

  lemma RecordDeviceSized(trails: Trails, device: Device, at: int)
    requires Sized(trails)
    ensures Sized(RecordDevice(trails, device, at))
  {
    if Accepts(trails, device) {
      AdvanceBounded(TrailOf(trails, Key(device)), at);
      assert RecordDevice(trails, device, at).Keys == trails.Keys + {Key(device)};
    }
  }

  predicate SeenPresent(trails: Trails, seen: set<string>) {
    forall key :: key in trails && key in seen ==> trails[key] != [] && Last(trails[key]).present
  }

  lemma {:induction false} RecordDevicesSized(trails: Trails, items: seq<Device>, at: int)
    requires Sized(trails)
    ensures Sized(RecordDevices(trails, items, at)) && SeenPresent(RecordDevices(trails, items, at), Seen(items))
  {
    if items != [] {
      var front := items[..|items| - 1];
      RecordDevicesSized(trails, front, at);
      RecordDeviceSized(RecordDevices(trails, front, at), items[|items| - 1], at);
      SeenLast(items);
    }
  }

  lemma RecordBounded(trails: Trails, items: seq<Device>, at: int)
    requires Sized(trails)
    ensures Bounded(Record(trails, items, at))
  {
    RecordDevicesSized(trails, items, at);
    var mid, r := RecordDevices(trails, items, at), Record(trails, items, at);
    SubsetSize(r.Keys, mid.Keys);
    assert |r| == |r.Keys| && |mid| == |mid.Keys|;
    forall key | key in r
      ensures Consecutive(r[key]) && !Empty(r[key])
    {
      AdvanceBounded(mid[key], at);
    }
  }

  lemma {:induction false} RunBounded(calls: seq<Call>)
    ensures Bounded(Run(calls))
  {
    if calls != [] {
      RunBounded(calls[..|calls| - 1]);
      RecordBounded(Run(calls[..|calls| - 1]), calls[|calls| - 1].items, Minute(calls[|calls| - 1].now));
    }
  }
}
