/**
 The trail store itself (internal/service/signal.go): one object per device, updated
 in place. The mutex makes each call one step, so every method is one transition.
 `log` is the unbounded log of accepted readings the store never keeps.
 */
module Signal {
  import opened Wrappers
  import opened Text
  import opened SignalSpec
  import H = SignalHistory

  class DeviceTrail {
    ghost const key: string
    var buckets: seq<Bucket>

    constructor (ghost key: string)
      ensures buckets == [] && this.key == key
    {
      this.key := key;
      buckets := [];
    }

    /** Afterwards the trail ends no earlier than `at`, and what it gained are blank minutes. */
    method Advance(at: int)
      modifies this
      ensures buckets == Advanced(old(buckets), at)
    {
      if |buckets| == 0 {
        buckets := [Blank(at)];
        return;
      }
      var last := buckets[|buckets| - 1].at;
      if at <= last {
        return;
      }
      if at - last > SIGNAL_BUCKETS {
        buckets := [Blank(at)];
        return;
      }
      var next := last + 1;
      while next <= at
        invariant last + 1 <= next <= at + 1
        invariant buckets == old(buckets) + Blanks(last + 1, next - 1)
      {
        buckets := buckets + [Blank(next)];
        next := next + 1;
      }
      if |buckets| > SIGNAL_BUCKETS {
        buckets := buckets[|buckets| - SIGNAL_BUCKETS..];
      }
    }

    /** The last bucket takes the reading; the others stay. */
    method Add(device: Device)
      requires buckets != []
      modifies this
      ensures buckets == Added(old(buckets), device)
    {
      var bucket := buckets[|buckets| - 1].(present := true);
      if device.linkQuality.Some? {
        bucket := bucket.(quality := device.linkQuality.value);
      }
      if device.rssi.None? {
        buckets := buckets[|buckets| - 1 := bucket];
        return;
      }
      var rssi := device.rssi.value;
      if bucket.count == 0 || rssi < bucket.min {
        bucket := bucket.(min := rssi);
      }
      if bucket.count == 0 || rssi > bucket.max {
        bucket := bucket.(max := rssi);
      }
      bucket := bucket.(sum := bucket.sum + rssi, count := bucket.count + 1);
      buckets := buckets[|buckets| - 1 := bucket];
    }

    method IsEmpty() returns (empty: bool)
      ensures empty == Empty(buckets)
    {
      for i := 0 to |buckets|
        invariant forall j :: 0 <= j < i ==> !buckets[j].present
      {
        if buckets[i].present {
          return false;
        }
      }
      return true;
    }
  }

  /**
   The store. `trails` is what it holds, as values; `log` is every reading it ever
   accepted. Both are ghost: only the trail objects are kept.
   */
  class SignalTrail {
    var devices: map<string, DeviceTrail>
    ghost var repr: set<DeviceTrail>
    ghost var trails: Trails
    ghost var log: seq<Entry>

    /** No two devices share a trail, and the objects hold the values. */
    ghost predicate Valid()
      reads this, repr
    {
      && trails.Keys == devices.Keys
      && forall key :: key in devices ==> Holds(key)
    }

    /** The object stored for a device is its own and holds its trail. */
    ghost predicate Holds(key: string)
      requires trails.Keys == devices.Keys && key in devices
      reads this, repr
    {
      var trail := devices[key];
      trail in repr && trail.key == key && trail.buckets == trails[key]
    }

    constructor ()
      ensures Valid() && trails == map[] && log == [] && repr == {}
    {
      devices, trails, log, repr := map[], map[], [], {};
    }

    /** One recording, as the value-level step has it; the log takes what was accepted. */
    method Record(items: seq<Device>, now: int)
      requires Valid()
      modifies this, repr
      ensures Valid() && fresh(repr - old(repr))
      ensures trails == SignalSpec.Record(old(trails), items, Minute(now))
      ensures log == old(log) + Accepted(old(trails), items, Minute(now))
    {
      var bucketAt := Minute(now);
      var seen: set<string> := {};
      assert items[..0] == [];
      for i := 0 to |items|
        invariant Valid() && fresh(repr - old(repr))
        invariant trails == RecordDevices(old(trails), items[..i], bucketAt)
        invariant log == old(log) + Accepted(old(trails), items[..i], bucketAt)
        invariant seen == Seen(items[..i])
      {
        assert items[..i + 1][..i] == items[..i];
        SeenLast(items[..i + 1]);
        AcceptedLast(old(trails), old(log), items[..i + 1], bucketAt);
        var key := Key(items[i]);
        if key != "" {
          seen := seen + {key};
        }
        assert seen == Seen(items[..i + 1]);
        RecordDevice(items[i], bucketAt);
      }
      assert items[..|items|] == items;
      SettleAll(seen, bucketAt);
    }

    /** The body of the loop over the inventory: one row. */
    method RecordDevice(device: Device, at: int)
      requires Valid()
      modifies this, repr
      ensures Valid() && fresh(repr - old(repr))
      ensures trails == SignalSpec.RecordDevice(old(trails), device, at)
      ensures log == if Accepts(old(trails), device) then old(log) + [Entry(Key(device), at, device)] else old(log)
    {
      var key := ToLower(device.extendedAddress);
      SameSize(devices, trails);
      if key == "" {
        return;
      }
      if key !in devices && |devices| >= SIGNAL_MAX_TRAILS {
        return;
      }
      Take(key, device, at);
    }

    /** An accepted row: its trail is opened if need be, moved on and given the reading. */
    method Take(key: string, device: Device, at: int)
      requires Valid()
      modifies this, repr
      ensures Valid() && fresh(repr - old(repr))
      ensures trails == Folded(Opened(old(trails), key), key, device, at)
      ensures log == old(log) + [Entry(key, at, device)]
    {
      OpenTrail(key);
      Fold(key, device, at);
      log := log + [Entry(key, at, device)];
    }

    /** Gives the device an empty trail unless it has one. */
    method OpenTrail(key: string)
      requires Valid()
      modifies this`devices, this`trails, this`repr
      ensures Valid() && fresh(repr - old(repr)) && key in devices
      ensures trails == Opened(old(trails), key)
    {
      if key in devices {
        return;
      }
      var created := new DeviceTrail(key);
      devices := devices[key := created];
      trails := trails[key := []];
      repr := repr + {created};
    }

    /** Moves one trail on and gives it the reading; the others are left alone. */
    method Fold(key: string, device: Device, at: int)
      requires Valid() && key in devices
      modifies this`trails, devices[key]
      ensures Valid() && trails == Folded(old(trails), key, device, at)
    {
      var trail := devices[key];
      trail.Advance(at);
      trail.Add(device);
      trails := trails[key := trail.buckets];
    }

    /** The loop over the stored trails, in whatever order the map gives them. */
    method SettleAll(seen: set<string>, at: int)
      requires Valid()
      modifies this`devices, this`trails, repr
      ensures Valid()
      ensures trails == Settle(old(trails), seen, at)
    {
      var keys := devices.Keys;
      while keys != {}
        invariant Valid() && keys <= devices.Keys
        invariant PartlySettled(old(trails), trails, keys, seen, at)
        decreases keys
      {
        var key :| key in keys;
        ghost var before, left := trails, keys;
        keys := keys - {key};
        if key !in seen {
          MoveOn(key, at);
        }
        SettleStep(old(trails), before, trails, left, key, seen, at);
      }
    }

    /** A device absent from the inventory: its trail moves on, and is dropped once nothing in it is present. */
    method MoveOn(key: string, at: int)
      requires Valid() && key in devices
      modifies this`devices, this`trails, devices[key]
      ensures Valid()
      ensures trails == match Settled(old(trails)[key], false, at)
                        case None => old(trails) - {key}
                        case Some(t) => old(trails)[key := t]
    {
      var trail := devices[key];
      trail.Advance(at);
      var empty := trail.IsEmpty();
      if empty {
        devices, trails := devices - {key}, trails - {key};
      } else {
        trails := trails[key := trail.buckets];
      }
    }
  }

  lemma SameSize<A, B>(a: map<string, A>, b: map<string, B>)
    requires a.Keys == b.Keys
    ensures |a| == |b|
  {
    assert |a| == |a.Keys| && |b| == |b.Keys|;
  }

  /**
   A store driven through a run holds what the run leaves, and summarises its log when the
   minutes never went back.
   */
  method Replay(calls: seq<Call>) returns (store: SignalTrail)
    ensures fresh(store) && store.Valid() && store.trails == Run(calls) && store.log == Log(calls)
    ensures calls != [] && MinutesNeverGoBack(calls) ==>
              Refines(store.trails, store.log, Minute(calls[|calls| - 1].now))
  {
    store := new SignalTrail();
    for i := 0 to |calls|
      invariant fresh(store) && fresh(store.repr) && store.Valid()
      invariant store.trails == Run(calls[..i]) && store.log == Log(calls[..i])
    {
      assert calls[..i + 1][..i] == calls[..i];
      store.Record(calls[i].items, calls[i].now);
    }
    assert calls[..|calls|] == calls;
    if calls != [] && MinutesNeverGoBack(calls) {
      RunRefines(calls);
    }
  }

  /** The history of the cleaned address, told from the trail stored for it or from none. */
  method History(store: SignalTrail, ext: string) returns (out: H.History)
    requires store.Valid()
    ensures var key := ToLower(TrimSpace(ext));
            out == H.HistoryOf(key, TrailOf(store.trails, key))
  {
    var key := ToLower(TrimSpace(ext));
    var buckets := [];
    if key in store.devices {
      assert store.Holds(key);
      buckets := store.devices[key].buckets;
    }
    var samples, total := [], 0;
    var count: nat, present: nat := 0, 0;
    var low: Option<int>, high: Option<int> := None, None;
    for i := 0 to |buckets|
      invariant samples == H.Samples(buckets[..i])
      invariant H.Tally(total, count, present, low, high) == H.TallyOf(buckets[..i])
    {
      assert buckets[..i + 1][..i] == buckets[..i];
      var bucket := buckets[i];
      var sample := H.Sample(bucket.at, bucket.present, bucket.count, None, None, None, None);
      if bucket.present {
        present := present + 1;
      }
      if bucket.count > 0 {
        var mean := H.RoundToInt(H.Quotient(bucket.sum, bucket.count));
        sample := sample.(rssi := Some(mean), minRssi := Some(bucket.min), maxRssi := Some(bucket.max));
        if bucket.quality != 0 {
          sample := sample.(quality := Some(bucket.quality));
        }
        total := total + bucket.sum;
        count := count + bucket.count;
        if low.None? || bucket.min < low.value {
          low := Some(bucket.min);
        }
        if high.None? || bucket.max > high.value {
          high := Some(bucket.max);
        }
      }
      samples := samples + [sample];
    }
    assert buckets[..|buckets|] == buckets;
    out := H.History(key, samples, |buckets| * H.BUCKET_SECONDS, None, None, None, None);
    if count > 0 {
      out := out.(meanRssi := Some(H.RoundToInt(H.Quotient(total, count))), minRssi := low, maxRssi := high);
    }
    if |buckets| > 0 {
      out := out.(presentPercent := Some(present * 100 / |buckets|));
    }
  }

  function Opened(before: Trails, key: string): Trails {
    if key in before then before else before[key := []]
  }

  function Folded(before: Trails, key: string, device: Device, at: int): Trails
    requires key in before
  {
    before[key := Added(Advanced(before[key], at), device)]
  }

  /** All but the trails in `left` are settled; those are as they were. */
  ghost predicate PartlySettled(before: Trails, now: Trails, left: set<string>, seen: set<string>, at: int) {
    && left <= now.Keys <= before.Keys
    && (forall key :: key in left ==> now[key] == before[key])
    && (forall key :: key in before && key !in left ==> Stored(now, key) == Settled(before[key], key in seen, at))
    && (left == {} ==> now == Settle(before, seen, at))
  }

  lemma SettleStep(before: Trails, now: Trails, next: Trails, left: set<string>, key: string, seen: set<string>,
                   at: int)
    requires PartlySettled(before, now, left, seen, at) && key in left
    requires next == if key in seen then now
                     else match Settled(now[key], false, at)
                          case None => now - {key}
                          case Some(t) => now[key := t]
    ensures PartlySettled(before, next, left - {key}, seen, at)
  {
    forall other | other in before && other !in left - {key}
      ensures Stored(next, other) == Settled(before[other], other in seen, at)
    {
    }
    if left - {key} == {} {
      assert next.Keys == Settle(before, seen, at).Keys;
    }
  }

  function Stored(trails: Trails, key: string): Option<seq<Bucket>> {
    if key in trails then Some(trails[key]) else None
  }
}
