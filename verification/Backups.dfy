/**
 The one saved dataset (internal/backup/store.go) and the handlers that take it
 before each destructive change (internal/api/server.go). Handlers run one at a
 time here; the network decides how each request to the router ends.
 */
module Backups {
  import opened Wrappers
  import opened Text
  import opened Control
  import Hex

  // ---------------------------------------------------------------- the store

  datatype Snapshot = Snapshot(tlv: string, networkName: string, savedAt: int)

  /** The backup file: missing, holding a snapshot, or holding something else. */
  datatype Disk = Absent | Holds(snapshot: Snapshot) | Corrupt

  /** What loading the file makes of it. */
  function Readable(disk: Disk): Option<Snapshot> {
    if disk.Holds? && disk.snapshot.tlv != "" then Some(disk.snapshot) else None
  }

  class Store {
    const enabled: bool
    var memory: Option<Snapshot>
    var disk: Disk

    /** Memory holds what a restart would load. */
    predicate Mirrors()
      reads this
    {
      if enabled then memory == Readable(disk) else memory == None
    }

    /** A process start: a new store over the file left by the last one. */
    constructor (enabled: bool, disk: Disk)
      ensures this.enabled == enabled && this.disk == disk && memory == None
    {
      this.enabled, this.disk, memory := enabled, disk, None;
    }

    /** Memory takes what the file holds. Only a file that cannot be read is an error, and leaves memory as it was. */
    method Load() returns (ok: bool)
      requires memory == None
      modifies this`memory
      ensures ok == (!enabled || disk != Corrupt)
      ensures Mirrors()
    {
      if !enabled {
        return true;
      }
      match disk {
        case Absent => return true;
        case Corrupt => return false;
        case Holds(snap) =>
          if snap.tlv == "" {
            return true;
          }
          memory := Some(snap);
          return true;
      }
    }

    /** Replaces the file by a rename, the last step; when any step before it fails the file is untouched. */
    method Persist(snap: Snapshot, fails: bool) returns (ok: bool)
      modifies this`disk
      ensures ok == !fails && disk == if fails then old(disk) else Holds(snap)
    {
      if fails {
        return false;
      }
      disk := Holds(snap);
      return true;
    }

    /** Records a dataset. Whether it works or not, memory and disk still agree afterwards. */
    method Save(tlv: string, networkName: string, now: int, persistFails: bool) returns (ok: bool)
      requires Mirrors()
      modifies this
      ensures Mirrors()
      ensures ok == (enabled && (TrimSpace(tlv) == "" || !persistFails))
      ensures memory == if enabled && TrimSpace(tlv) != "" && !persistFails
                        then Some(Snapshot(TrimSpace(tlv), networkName, now)) else old(memory)
      ensures memory == old(memory) ==> disk == old(disk) || Readable(disk) == Readable(old(disk))
    {
      if !enabled {
        return false;
      }
      if TrimSpace(tlv) == "" {
        return true;
      }
      var snap := Snapshot(TrimSpace(tlv), networkName, now);
      ok := Persist(snap, persistFails);
      if !ok {
        return;
      }
      memory := Some(snap);
    }

    function Tlv(): string
      reads this
    {
      if memory.None? then "" else memory.value.tlv
    }
  }

  /** After a save, a new process loads exactly what the old one held. */
  method RestartLoadsTheSame(store: Store) returns (restarted: Store)
    requires store.Mirrors()
    ensures fresh(restarted) && restarted.memory == store.memory && restarted.Mirrors()
  {
    restarted := new Store(store.enabled, store.disk);
    var _ := restarted.Load();
  }

  // ---------------------------------------------------------------- datasets as text

  predicate Blank(c: char) { c == ' ' || c == '\n' || c == '\t' || c == '\r' }

  function Strip(s: string): string {
    if s == [] then [] else if Blank(s[0]) then Strip(s[1..]) else [s[0]] + Strip(s[1..])
  }

  /** The dataset a TLV text stands for, or nothing when it is refused before anything is sent. */
  function ValidDatasetTlv(tlv: string): Option<Dataset> {
    var clean := Hex.TrimHexPrefix(ToLower(Strip(TrimSpace(tlv))));
    if clean == "" || |clean| > 1024 then None else Hex.Decode(clean)
  }

  lemma {:induction false} StripDigits(s: string)
    requires forall i :: 0 <= i < |s| ==> Hex.IsDigit(s[i])
    ensures Strip(s) == s
  {
    if s != [] {
      assert Hex.IsDigit(s[0]);
      StripDigits(s[1..]);
      assert s == [s[0]] + s[1..];
    }
  }

  lemma TrimDigits(s: string)
    requires forall i :: 0 <= i < |s| ==> Hex.IsDigit(s[i])
    ensures TrimSpace(s) == s
  {
    if s != [] {
      assert Hex.IsDigit(s[0]) && Hex.IsDigit(s[|s| - 1]);
      assert TrimLeft(s) == s;
      assert TrimRight(s) == s;
    }
  }

  lemma LowerDigits(s: string)
    requires forall i :: 0 <= i < |s| ==> Hex.IsDigit(s[i])
    ensures ToLower(s) == s
  {
  }

  lemma PrefixDigits(s: string)
    requires forall i :: 0 <= i < |s| ==> Hex.IsDigit(s[i])
    ensures Hex.TrimHexPrefix(s) == s
  {
    if |s| >= 2 {
      assert Hex.IsDigit(s[1]) && s[..2][1] == s[1];
    }
  }

  /** A text of digits is its own trimmed and lower-cased form. */
  lemma DigitsAreClean(s: string)
    requires forall i :: 0 <= i < |s| ==> Hex.IsDigit(s[i])
    ensures TrimSpace(s) == s && Hex.TrimHexPrefix(ToLower(Strip(s))) == s
  {
    TrimDigits(s);
    StripDigits(s);
    LowerDigits(s);
    PrefixDigits(s);
  }

  /** The text the router gives for a dataset is read back as that dataset exactly when it has 1 to 512 bytes. */
  lemma DatasetReadsBack(d: Dataset)
    ensures ValidDatasetTlv(Hex.Encode(d)) == if 1 <= |d| <= 512 then Some(d) else None
  {
    Hex.EncodeDigits(d);
    DigitsAreClean(Hex.Encode(d));
    Hex.DecodeEncode(d);
  }

  // ---------------------------------------------------------------- datasets as they are pasted

  lemma {:induction false} TrimLeftJoin(a: string, b: string)
    ensures TrimLeft(a + b) == if TrimLeft(a) == "" then TrimLeft(b) else TrimLeft(a) + b
  {
    if a == "" {
      assert a + b == b;
    } else if IsSpace(a[0]) {
      TrimLeftJoin(a[1..], b);
      assert (a + b)[1..] == a[1..] + b;
    }
  }

  lemma {:induction false} TrimRightJoin(a: string, b: string)
    ensures TrimRight(a + b) == if TrimRight(b) == "" then TrimRight(a) else a + TrimRight(b)
  {
    if b == "" {
      assert a + b == a;
    } else if IsSpace(b[|b| - 1]) {
      TrimRightJoin(a, b[..|b| - 1]);
      assert (a + b)[..|a + b| - 1] == a + b[..|b| - 1];
    }
  }

  lemma {:induction false} StripJoin(a: string, b: string)
    ensures Strip(a + b) == Strip(a) + Strip(b)
  {
    if a == "" {
      assert a + b == b;
    } else {
      StripJoin(a[1..], b);
      assert (a + b)[1..] == a[1..] + b;
    }
  }

  lemma BlankVanishes(a: string, c: char, b: string)
    requires Blank(c)
    ensures Strip(TrimSpace(a + [c] + b)) == Strip(TrimSpace(a + b))
  {
    var inner := TrimLeft(a);
    assert a + [c] + b == a + ([c] + b) && ([c] + b)[1..] == b && [c][..0] == "";
    TrimLeftJoin(a, [c] + b);
    TrimLeftJoin(a, b);
    if inner != "" {
      assert inner + ([c] + b) == (inner + [c]) + b;
      TrimRightJoin(inner + [c], b);
      TrimRightJoin(inner, [c]);
      TrimRightJoin(inner, b);
      BlankIsStripped(inner, c, TrimRight(b));
    }
  }

  lemma BlankIsStripped(a: string, c: char, b: string)
    requires Blank(c)
    ensures Strip(a + [c] + b) == Strip(a + b)
  {
    StripJoin(a + [c], b);
    StripJoin(a, [c]);
    StripJoin(a, b);
    assert [c][1..] == "";
  }

  /** A blank or a line break anywhere in a pasted dataset makes no difference. */
  lemma BlanksAreIgnored(a: string, c: char, b: string)
    requires c == ' ' || c == '\n' || c == '\t' || c == '\r'
    ensures ValidDatasetTlv(a + [c] + b) == ValidDatasetTlv(a + b)
  {
    BlankVanishes(a, c, b);
  }

  /** Digits and capital letters, or the prefix's letter. */
  predicate IsCapital(c: char) { '0' <= c <= '9' || 'A' <= c <= 'F' || c == 'x' }

  predicate AllCapital(s: string) { forall i :: 0 <= i < |s| ==> IsCapital(s[i]) }

  lemma EncodeUpper(d: Dataset)
    ensures ToLower(ToUpper(Hex.Encode(d))) == Hex.Encode(d)
    ensures AllCapital(ToUpper(Hex.Encode(d)))
  {
    var s := Hex.Encode(d);
    Hex.EncodeDigits(d);
    forall i | 0 <= i < |s|
      ensures LowerChar(UpperChar(s[i])) == s[i]
    {
      assert Hex.IsDigit(s[i]);
    }
  }

  lemma CleanReads(tlv: string, d: Dataset)
    requires 1 <= |d| <= 512 && Hex.TrimHexPrefix(ToLower(Strip(TrimSpace(tlv)))) == Hex.Encode(d)
    ensures ValidDatasetTlv(tlv) == Some(d)
  {
    Hex.DecodeEncode(d);
  }

  /** Nor do capitals, with or without the prefix. */
  lemma CapitalsAreIgnored(d: Dataset)
    requires 1 <= |d| <= 512
    ensures ValidDatasetTlv(ToUpper(Hex.Encode(d))) == ValidDatasetTlv("0x" + ToUpper(Hex.Encode(d))) == Some(d)
  {
    var s := ToUpper(Hex.Encode(d));
    EncodeUpper(d);
    Hex.EncodeDigits(d);
    PrefixDigits(Hex.Encode(d));
    KeptWhole(s);
    CleanReads(s, d);
    PrefixedReads(d, s);
  }

  lemma PrefixedReads(d: Dataset, s: string)
    requires 1 <= |d| <= 512 && ToLower(s) == Hex.Encode(d)
    requires AllCapital(s)
    ensures ValidDatasetTlv("0x" + s) == Some(d)
  {
    var t := "0x" + s;
    assert "0x"[0] == '0' && "0x"[1] == 'x';
    assert AllCapital(t);
    KeptWhole(t);
    LowerJoin("0x", s);
    assert ToLower("0x") == "0x";
    var low := ToLower(t);
    assert low == "0x" + Hex.Encode(d) && low[..2] == "0x" && low[2..] == Hex.Encode(d);
    CleanReads(t, d);
  }

  lemma LowerJoin(a: string, b: string)
    ensures ToLower(a + b) == ToLower(a) + ToLower(b)
  {
  }

  /** Such a text stays as it is. */
  lemma KeptWhole(s: string)
    requires AllCapital(s)
    ensures TrimSpace(s) == s && Strip(s) == s
  {
    if s != "" {
      assert IsCapital(s[0]) && IsCapital(s[|s| - 1]);
      assert TrimLeft(s) == s && TrimRight(s) == s;
      StripWhole(s);
    }
  }

  lemma {:induction false} StripWhole(s: string)
    requires AllCapital(s)
    ensures Strip(s) == s
  {
    if s != "" {
      assert IsCapital(s[0]);
      StripWhole(s[1..]);
      assert s == [s[0]] + s[1..];
    }
  }

  // ---------------------------------------------------------------- the handlers

  datatype Reply = Changed | NothingSaved | BadInput | RouterFailed

  /** What the world does during one handler besides answering writes. */
  datatype Weather = Weather(readFails: bool, persistFails: bool, now: int, networkName: string)

  class Server {
    const otbr: Otbr
    const store: Store

    constructor (otbr: Otbr, store: Store)
      ensures this.otbr == otbr && this.store == store
    {
      this.otbr, this.store := otbr, store;
    }

    /** Everything works: the store is on, its file can be replaced, the dataset can be read and is not empty. */
    predicate CanBackUp(w: Weather)
      reads this, otbr, store
    {
      && store.enabled && !w.readFails && !w.persistFails
      && otbr.router.dataset.Some? && otbr.router.dataset.value != []
    }

    /** Backs up the active dataset, if there is one and everything works; never stops the change. */
    method TakeSnapshot(w: Weather)
      requires store.Mirrors()
      modifies store
      ensures store.Mirrors()
      ensures store.memory == if old(CanBackUp(w))
                              then Some(Snapshot(Hex.Encode(otbr.router.dataset.value), w.networkName, w.now))
                              else old(store.memory)
    {
      if w.readFails || otbr.router.dataset.None? {
        return;
      }
      var tlv := Hex.Encode(otbr.router.dataset.value);
      if tlv == "" {
        return;
      }
      Hex.EncodeDigits(otbr.router.dataset.value);
      DigitsAreClean(tlv);
      var _ := store.Save(tlv, w.networkName, w.now, w.persistFails);
    }

    /**
     Forming and joining: back up, then commit the new dataset. `d` is missing when
     the request's fields are refused, which is found out only after the backup. What
     is sent is the commit and nothing else, and the reply is that of the commit.
     */
    method Replace(caller: nat, d: Option<Dataset>, w: Weather) returns (reply: Reply, ghost outcomes: seq<Outcome>)
      requires store.Mirrors()
      modifies otbr, store
      ensures store.Mirrors() && reply != NothingSaved
      ensures d.Some? ==> Ran(otbr, caller, Commit(d.value), reply == Changed, outcomes)
      ensures reply == Changed ==> d.Some? && otbr.router == Router(true, d)
      ensures reply == BadInput <==> d.None?
      ensures reply == BadInput ==> otbr.router == old(otbr.router) && otbr.log == old(otbr.log)
      ensures BackedUp(w)
    {
      TakeSnapshot(w);
      SavedReadsBack(store, otbr.router.dataset);
      if d.None? {
        return BadInput, [];
      }
      ghost var before := otbr.router;
      var ok;
      ok, outcomes := ApplyDatasetRaw(otbr, caller, d.value);
      CommitAlone(before, d.value, outcomes);
      reply := if ok then Changed else RouterFailed;
    }

    /** Joining by TLV text. */
    method JoinTlv(caller: nat, tlv: string, w: Weather) returns (reply: Reply, ghost outcomes: seq<Outcome>)
      requires store.Mirrors()
      modifies otbr, store
      ensures store.Mirrors() && reply != NothingSaved
      ensures ValidDatasetTlv(tlv).Some? ==>
                Ran(otbr, caller, Commit(ValidDatasetTlv(tlv).value), reply == Changed, outcomes)
      ensures reply == Changed ==> ValidDatasetTlv(tlv).Some? && otbr.router == Router(true, ValidDatasetTlv(tlv))
      ensures reply == BadInput <==> ValidDatasetTlv(tlv).None?
      ensures reply == BadInput ==> otbr.router == old(otbr.router) && otbr.log == old(otbr.log)
      ensures BackedUp(w)
    {
      reply, outcomes := Replace(caller, ValidDatasetTlv(tlv), w);
    }

    method LeaveAll(caller: nat, w: Weather) returns (reply: Reply, ghost outcomes: seq<Outcome>)
      requires store.Mirrors()
      modifies otbr, store
      ensures store.Mirrors() && reply in {Changed, RouterFailed}
      ensures Ran(otbr, caller, Leave, reply == Changed, outcomes)
      ensures reply == Changed ==> otbr.router == Router(false, None)
      ensures BackedUp(w)
    {
      TakeSnapshot(w);
      SavedReadsBack(store, otbr.router.dataset);
      ghost var before := otbr.router;
      var ok;
      ok, outcomes := LeaveNetwork(otbr, caller);
      LeaveAlone(before, outcomes);
      reply := if ok then Changed else RouterFailed;
    }

    /**
     Restoring: the saved dataset is read first, then the active one is backed up in
     its place, then the saved one is committed. Whatever becomes of the commit, the
     old restore point is gone once the backup has worked.
     */
    method Restore(caller: nat, w: Weather) returns (reply: Reply, ghost outcomes: seq<Outcome>)
      requires store.Mirrors()
      modifies otbr, store
      ensures store.Mirrors()
      ensures old(Saved(store)).Some? ==>
                Ran(otbr, caller, Commit(old(Saved(store)).value), reply == Changed, outcomes)
      ensures reply == NothingSaved <==> old(store.memory.None? || store.memory.value.tlv == "")
      ensures reply == NothingSaved ==>
                otbr.router == old(otbr.router) && otbr.log == old(otbr.log) && store.memory == old(store.memory)
      ensures reply == Changed ==> old(Saved(store)).Some? && otbr.router == Router(true, old(Saved(store)))
      ensures reply == BadInput ==> old(Saved(store)).None? && otbr.router == old(otbr.router)
      ensures reply != NothingSaved ==> BackedUp(w)
    {
      var tlv := store.Tlv();
      if tlv == "" {
        return NothingSaved, [];
      }
      reply, outcomes := JoinTlv(caller, tlv, w);
    }

    /**
     After a handler: the dataset it found is now the saved one if everything worked, else
     the saved one is as before.
     */
    twostate predicate BackedUp(w: Weather)
      reads this, otbr, store
    {
      if old(CanBackUp(w)) then
        && store.memory.Some? && store.memory.value.savedAt == w.now && store.memory.value.networkName == w.networkName
        && Saved(store) == if |old(otbr.router).dataset.value| <= 512 then old(otbr.router).dataset else None
      else store.memory == old(store.memory)
    }

    /**
     Two restores bring back both the active dataset and the saved one. They work exactly when
     something is saved that is a dataset and the router answers all six requests well.
     */
    method RestoreTwice(caller: nat, first: Weather, second: Weather)
      returns (worked: bool, ghost one: seq<Outcome>, ghost two: seq<Outcome>)
      requires store.Mirrors() && CanBackUp(first) && !second.readFails && !second.persistFails
      requires |otbr.router.dataset.value| <= 512
      modifies otbr, store
      ensures worked ==> otbr.router == Router(true, old(otbr.router.dataset)) && Saved(store) == old(Saved(store))
      ensures worked <==> old(Saved(store)).Some? && AllDone(one) && AllDone(two)
    {
      var reply;
      reply, one := Restore(caller, first);
      two := [];
      if reply != Changed {
        return false, one, two;
      }
      reply, two := Restore(caller, second);
      worked := reply == Changed;
    }
  }

  /** All three requests of a commit were answered well. */
  predicate AllDone(outcomes: seq<Outcome>) { outcomes == [Done, Done, Done] }

  /** The dataset a restore would commit. */
  function Saved(store: Store): Option<Dataset>
    reads store
  {
    ValidDatasetTlv(store.Tlv())
  }

  lemma SavedReadsBack(store: Store, d: Option<Dataset>)
    ensures d.Some? && d.value != [] && store.memory.Some? && store.memory.value.tlv == Hex.Encode(d.value) ==>
              Saved(store) == if |d.value| <= 512 then d else None
  {
    if d.Some? {
      DatasetReadsBack(d.value);
    }
  }
}
