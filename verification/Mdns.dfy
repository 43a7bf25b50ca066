/**
 What a browse collects (`collector` in internal/mdns/browse.go): every record is filed under its name when it
 comes, and instances are put together when read out. The specification is a function of the log of records.
 */
module Mdns {
  import opened Wrappers
  import opened Text
  import opened TextFacts
  import opened Sorting

  const MAX_SUBTYPE_QUERIES: nat := 32
  const SUBTYPE_MARKER := "._sub."

  /** A resource record. Address records carry the address as it is printed. */
  datatype Record =
    | Ptr(target: string)
    | Srv(name: string, target: string, port: nat)
    | Txt(name: string, entries: seq<string>)
    | Address(name: string, text: string)
    | Other

  /** A response packet: what could be read of it. */
  datatype Packet = Unreadable | Response(answers: seq<Record>, additionals: seq<Record>)

  datatype Instance = Instance(name: string, service: string, host: string, port: nat, addresses: seq<string>,
                               txt: Option<map<string, string>>)

  // ---------------------------------------------------------------- the log's meaning

  /** A pointer to something below the service. */
  predicate Relevant(query: string, r: Record) {
    r.Ptr? && ToLower(r.target) != query && HasSuffix(ToLower(r.target), "." + query)
  }

  /** It points at a subtype (`sub`) or at an instance. */
  predicate Names(query: string, r: Record, sub: bool) {
    Relevant(query, r) && Contains(ToLower(r.target), SUBTYPE_MARKER) == sub
  }

  /** The names pointed at, in order of first appearance. */
  function Targets(query: string, log: seq<Record>, sub: bool): seq<string> {
    if log == [] then []
    else
      var before, r := Targets(query, log[..|log| - 1], sub), log[|log| - 1];
      if Names(query, r, sub) && ToLower(r.target) !in before then before + [ToLower(r.target)] else before
  }

  predicate IsSrv(r: Record, name: string) { r.Srv? && ToLower(r.name) == name }

  predicate IsTxt(r: Record, name: string) { r.Txt? && ToLower(r.name) == name }

  predicate IsAddress(r: Record, host: string, text: string) { r.Address? && ToLower(r.name) == host && r.text == text }

  function LastSrv(log: seq<Record>, name: string): Option<Record> {
    if log == [] then None
    else if IsSrv(log[|log| - 1], name) then Some(log[|log| - 1])
    else LastSrv(log[..|log| - 1], name)
  }

  function LastTxt(log: seq<Record>, name: string): Option<Record> {
    if log == [] then None
    else if IsTxt(log[|log| - 1], name) then Some(log[|log| - 1])
    else LastTxt(log[..|log| - 1], name)
  }

  /** A host's addresses, in order of first appearance. */
  function HostAddresses(log: seq<Record>, host: string): seq<string> {
    if log == [] then []
    else
      var before, r := HostAddresses(log[..|log| - 1], host), log[|log| - 1];
      if r.Address? && ToLower(r.name) == host && r.text !in before then before + [r.text] else before
  }

  /** Key and value of a text entry; one without an equals sign is all key. */
  function KeyValue(entry: string): (string, string) {
    match Cut(entry, '=') case None => (entry, "") case Some((key, value)) => (key, value)
  }

  function Entries(entries: seq<string>): map<string, string> {
    if entries == [] then map[]
    else
      var before, (key, value) := Entries(entries[..|entries| - 1]), KeyValue(entries[|entries| - 1]);
      if key == "" then before else before[key := value]
  }

  /** Where an instance is: its host and port. */
  function Location(srv: Option<Record>): (string, nat) {
    if srv.Some? && srv.value.Srv? then (ToLower(srv.value.target), srv.value.port) else ("", 0)
  }

  function Attributes(txt: Option<Record>): Option<map<string, string>> {
    if txt.Some? && txt.value.Txt? && txt.value.entries != [] then Some(Entries(txt.value.entries)) else None
  }

  function InstanceName(query: string, fqdn: string): string {
    var n := |fqdn| - |query| - 1;
    ToUpper(if n >= 0 && HasSuffix(fqdn, "." + query) then fqdn[..n] else fqdn)
  }

  /** One instance as the log describes it. */
  function InstanceOf(query: string, service: string, log: seq<Record>, fqdn: string): Instance {
    var srv := LastSrv(log, fqdn);
    var (host, port) := Location(srv);
    Instance(InstanceName(query, fqdn), service, host, port,
             if srv.Some? then Sort(HostAddresses(log, host), Less) else [], Attributes(LastTxt(log, fqdn)))
  }

  // ---------------------------------------------------------------- the collector

  class Collector {
    const service: string
    const queryName: string
    const suffix: string
    var seen: set<string>
    var subtypes: set<string>
    var srv: map<string, Record>
    var txt: map<string, Record>
    var addresses: map<string, seq<string>>
    var order: seq<string>
    var subOrder: seq<string>
    ghost var log: seq<Record>

    ghost predicate Valid()
      reads this
    {
      && suffix == "." + queryName
      && order == Targets(queryName, log, false) && subOrder == Targets(queryName, log, true)
      && (forall x :: x in seen <==> x in order) && (forall x :: x in subtypes <==> x in subOrder)
      && HoldsSrv(srv, log) && HoldsTxt(txt, log) && HoldsAddresses(addresses, log)
    }

    constructor (service: string, queryName: string)
      ensures Valid() && log == [] && this.service == service && this.queryName == ToLower(queryName)
    {
      this.service := service;
      this.queryName := ToLower(queryName);
      this.suffix := "." + ToLower(queryName);
      seen, subtypes, srv, txt, addresses, order, subOrder, log := {}, {}, map[], map[], map[], [], [], [];
    }

    /** One more record: the state becomes that of the longer log. */
    method Record(r: Record)
      requires Valid()
      modifies this
      ensures Valid() && log == old(log) + [r]
    {
      ghost var longer := log + [r];
      OneMoreSrv(srv, log, r);
      OneMoreTxt(txt, log, r);
      OneMoreAddress(addresses, log, r);
      match r {
        case Ptr(target) => Point(ToLower(target), r);
        case Srv(name, _, _) => srv := srv[ToLower(name) := r];
        case Txt(name, _) => txt := txt[ToLower(name) := r];
        case Address(name, text) => AddAddress(ToLower(name), text);
        case Other =>
      }
      log := longer;
    }

    method Point(target: string, ghost r: Record)
      requires r.Ptr? && target == ToLower(r.target) && suffix == "." + queryName
      requires (forall x :: x in seen <==> x in order) && (forall x :: x in subtypes <==> x in subOrder)
      modifies this`seen, this`subtypes, this`order, this`subOrder
      ensures order == old(order) + (if Names(queryName, r, false) && target !in old(order) then [target] else [])
      ensures subOrder ==
              old(subOrder) + (if Names(queryName, r, true) && target !in old(subOrder) then [target] else [])
      ensures (forall x :: x in seen <==> x in order) && (forall x :: x in subtypes <==> x in subOrder)
    {
      if target == queryName || !HasSuffix(target, suffix) {
        return;
      }
      if Contains(target, SUBTYPE_MARKER) {
        if target !in subtypes {
          subtypes := subtypes + {target};
          subOrder := subOrder + [target];
        }
        return;
      }
      if target !in seen {
        seen := seen + {target};
        order := order + [target];
      }
    }

    method AddAddress(host: string, text: string)
      modifies this`addresses
      ensures addresses == WithAddress(old(addresses), host, text)
    {
      var known := AddressesOf(addresses, host);
      for i := 0 to |known|
        invariant text !in known[..i]
      {
        if known[i] == text {
          return;
        }
      }
      assert known[..|known|] == known;
      addresses := addresses[host := known + [text]];
    }

    /** A packet's records, answers first; a packet that cannot be read adds nothing. */
    method Absorb(packet: Packet)
      requires Valid()
      modifies this
      ensures Valid()
      ensures log == old(log) + if packet.Unreadable? then [] else packet.answers + packet.additionals
    {
      assert log + [] == log;
      if packet.Unreadable? {
        return;
      }
      var records := packet.answers + packet.additionals;
      for i := 0 to |records|
        invariant Valid() && log == old(log) + records[..i]
      {
        Record(records[i]);
        assert records[..i + 1] == records[..i] + [records[i]];
      }
      assert records[..|records|] == records;
    }

    /** The names to query: the service, then the first subtypes heard of, nothing twice, 33 names at most. */
    method QueryNames() returns (names: seq<string>)
      requires Valid()
      ensures 1 <= |names| <= MAX_SUBTYPE_QUERIES + 1 && names[0] == queryName
      ensures |names| <= 1 + |subOrder| && names[1..] == subOrder[..|names| - 1]
      ensures |names| <= MAX_SUBTYPE_QUERIES ==> |names| == 1 + |subOrder|
      ensures Distinct(names)
    {
      names := [queryName];
      var i := 0;
      while i < |subOrder| && |names| <= MAX_SUBTYPE_QUERIES
        invariant 0 <= i <= |subOrder| && |names| == i + 1 && |names| <= MAX_SUBTYPE_QUERIES + 1
        invariant names == [queryName] + subOrder[..i]
      {
        names := names + [subOrder[i]];
        i := i + 1;
      }
      TargetsAreDistinct(queryName, log, true);
    }

    /** Joins what was collected: one instance for every name pointed at, in order. */
    method Instances() returns (instances: seq<Instance>)
      requires Valid()
      ensures |instances| == |order|
      ensures forall k :: 0 <= k < |order| ==> instances[k] == InstanceOf(queryName, service, log, order[k])
    {
      instances := [];
      TargetsAreDistinct(queryName, log, false);
      for k := 0 to |order|
        invariant |instances| == k
        invariant forall j :: 0 <= j < k ==> instances[j] == InstanceOf(queryName, service, log, order[j])
      {
        var instance := Join(order[k]);
        instances := instances + [instance];
      }
    }

    method Join(fqdn: string) returns (instance: Instance)
      requires Valid() && HasSuffix(fqdn, suffix)
      ensures instance == InstanceOf(queryName, service, log, fqdn)
    {
      instance := Instance(ToUpper(fqdn[..|fqdn| - |suffix|]), service, "", 0, [], None);
      assert Found(srv, fqdn) == LastSrv(log, fqdn) && Found(txt, fqdn) == LastTxt(log, fqdn);
      if fqdn in srv {
        LastSrvIsSrv(log, fqdn);
        instance := instance.(host := ToLower(srv[fqdn].target), port := srv[fqdn].port);
        assert AddressesOf(addresses, instance.host) == HostAddresses(log, instance.host);
        instance := instance.(addresses := Sort(AddressesOf(addresses, instance.host), Less));
      }
      if fqdn in txt && txt[fqdn].Txt? && txt[fqdn].entries != [] {
        var read := ReadEntries(txt[fqdn].entries);
        instance := instance.(txt := Some(read));
      }
    }
  }

  function Found(records: map<string, Record>, name: string): Option<Record> {
    if name in records then Some(records[name]) else None
  }

  function AddressesOf(addresses: map<string, seq<string>>, host: string): seq<string> {
    if host in addresses then addresses[host] else []
  }

  function WithAddress(addresses: map<string, seq<string>>, host: string, text: string): map<string, seq<string>> {
    if text in AddressesOf(addresses, host) then addresses else addresses[host := AddressesOf(addresses, host) + [text]]
  }

  ghost predicate HoldsSrv(srv: map<string, Record>, log: seq<Record>) { forall n :: Found(srv, n) == LastSrv(log, n) }

  ghost predicate HoldsTxt(txt: map<string, Record>, log: seq<Record>) { forall n :: Found(txt, n) == LastTxt(log, n) }

  ghost predicate HoldsAddresses(addresses: map<string, seq<string>>, log: seq<Record>) {
    forall h :: AddressesOf(addresses, h) == HostAddresses(log, h)
  }

  lemma OneMoreSrv(srv: map<string, Record>, log: seq<Record>, r: Record)
    requires HoldsSrv(srv, log)
    ensures HoldsSrv(if r.Srv? then srv[ToLower(r.name) := r] else srv, log + [r])
  {
    assert (log + [r])[..|log|] == log;
    var after := if r.Srv? then srv[ToLower(r.name) := r] else srv;
    forall n
      ensures Found(after, n) == LastSrv(log + [r], n)
    {
      assert Found(srv, n) == LastSrv(log, n);
    }
  }

  lemma OneMoreTxt(txt: map<string, Record>, log: seq<Record>, r: Record)
    requires HoldsTxt(txt, log)
    ensures HoldsTxt(if r.Txt? then txt[ToLower(r.name) := r] else txt, log + [r])
  {
    assert (log + [r])[..|log|] == log;
    var after := if r.Txt? then txt[ToLower(r.name) := r] else txt;
    forall n
      ensures Found(after, n) == LastTxt(log + [r], n)
    {
      assert Found(txt, n) == LastTxt(log, n);
    }
  }

  lemma OneMoreAddress(addresses: map<string, seq<string>>, log: seq<Record>, r: Record)
    requires HoldsAddresses(addresses, log)
    ensures HoldsAddresses(if r.Address? then WithAddress(addresses, ToLower(r.name), r.text) else addresses, log + [r])
  {
    assert (log + [r])[..|log|] == log;
    var after := if r.Address? then WithAddress(addresses, ToLower(r.name), r.text) else addresses;
    forall h
      ensures AddressesOf(after, h) == HostAddresses(log + [r], h)
    {
      assert AddressesOf(addresses, h) == HostAddresses(log, h);
    }
  }

  method ReadEntries(entries: seq<string>) returns (read: map<string, string>)
    ensures read == Entries(entries)
  {
    read := map[];
    for i := 0 to |entries|
      invariant read == Entries(entries[..i])
    {
      assert entries[..i + 1][..i] == entries[..i];
      var (key, value) := KeyValue(entries[i]);
      if key != "" {
        read := read[key := value];
      }
    }
    assert entries[..|entries|] == entries;
  }

  // ---------------------------------------------------------------- what the lists hold

  predicate Pointed(query: string, log: seq<Record>, sub: bool, name: string) {
    exists i :: 0 <= i < |log| && Names(query, log[i], sub) && ToLower(log[i].target) == name
  }

  /** The order lists hold exactly the names pointed at, each once. */
  lemma {:induction false} TargetsAreDistinct(query: string, log: seq<Record>, sub: bool)
    ensures Distinct(Targets(query, log, sub))
    ensures forall name :: name in Targets(query, log, sub) <==> Pointed(query, log, sub, name)
    ensures query !in Targets(query, log, sub)
    ensures forall k :: 0 <= k < |Targets(query, log, sub)| ==> HasSuffix(Targets(query, log, sub)[k], "." + query)
  {
    if log != [] {
      var front, r := log[..|log| - 1], log[|log| - 1];
      TargetsAreDistinct(query, front, sub);
      forall name
        ensures Pointed(query, log, sub, name) <==>
                Pointed(query, front, sub, name) || (Names(query, r, sub) && ToLower(r.target) == name)
      {
        assert forall i :: 0 <= i < |front| ==> front[i] == log[i];
        if Pointed(query, front, sub, name) {
          var i :| 0 <= i < |front| && Names(query, front[i], sub) && ToLower(front[i].target) == name;
          assert log[i] == front[i];
        }
      }
    }
  }

  /** No name is taken for an instance and for a subtype. */
  lemma SubtypesAreNotInstances(query: string, log: seq<Record>, name: string)
    ensures !(name in Targets(query, log, false) && name in Targets(query, log, true))
  {
    TargetsAreDistinct(query, log, false);
    TargetsAreDistinct(query, log, true);
  }

  predicate Answered(log: seq<Record>, host: string, text: string) {
    exists i :: 0 <= i < |log| && IsAddress(log[i], host, text)
  }

  lemma {:induction false} AddressesAreDistinct(log: seq<Record>, host: string)
    ensures Distinct(HostAddresses(log, host))
    ensures forall text :: text in HostAddresses(log, host) <==> Answered(log, host, text)
  {
    if log != [] {
      var front, r := log[..|log| - 1], log[|log| - 1];
      AddressesAreDistinct(front, host);
      forall text
        ensures Answered(log, host, text) <==> Answered(front, host, text) || IsAddress(r, host, text)
      {
        if Answered(front, host, text) {
          var i :| 0 <= i < |front| && IsAddress(front[i], host, text);
          assert log[i] == front[i];
        }
        if i :| 0 <= i < |log| && IsAddress(log[i], host, text) {
          assert i < |front| ==> front[i] == log[i];
        }
      }
    }
  }

  /** An instance's addresses are exactly those its host answered with, in strict order. */
  lemma AddressesAscend(log: seq<Record>, host: string)
    ensures Ascending(Sort(HostAddresses(log, host), Less), Less)
    ensures forall text :: text in Sort(HostAddresses(log, host), Less) <==> Answered(log, host, text)
  {
    AddressesAreDistinct(log, host);
    TextOrderIsStrict();
    var list := HostAddresses(log, host);
    forall i, j | 0 <= i < j < |list|
      ensures Less(list[i], list[j]) || Less(list[j], list[i])
    {
      LessIsTotal(list[i], list[j]);
    }
    SortAscends(list, Less);
  }

  // ---------------------------------------------------------------- what an instance says

  lemma {:induction false} LastSrvIsSrv(log: seq<Record>, name: string)
    ensures LastSrv(log, name).Some? ==> LastSrv(log, name).value.Srv?
  {
    if log != [] {
      LastSrvIsSrv(log[..|log| - 1], name);
    }
  }

  /** Record `i` is the last SRV record of the name, whatever the case of its letters. */
  predicate IsLastSrv(log: seq<Record>, name: string, i: nat) {
    && i < |log| && log[i].Srv? && ToLower(log[i].name) == name
    && forall j :: i < j < |log| && log[j].Srv? ==> ToLower(log[j].name) != name
  }

  predicate IsLastTxt(log: seq<Record>, name: string, i: nat) {
    && i < |log| && log[i].Txt? && ToLower(log[i].name) == name
    && forall j :: i < j < |log| && log[j].Txt? ==> ToLower(log[j].name) != name
  }

  lemma {:induction false} LastSrvAt(log: seq<Record>, name: string, i: nat)
    ensures IsLastSrv(log, name, i) ==> LastSrv(log, name) == Some(log[i])
    ensures (forall j :: 0 <= j < |log| && log[j].Srv? ==> ToLower(log[j].name) != name) ==> LastSrv(log, name) == None
  {
    if log != [] {
      var front := log[..|log| - 1];
      LastSrvAt(front, name, i);
      assert i < |front| && IsLastSrv(log, name, i) ==> IsLastSrv(front, name, i);
    }
  }

  lemma {:induction false} LastTxtAt(log: seq<Record>, name: string, i: nat)
    ensures IsLastTxt(log, name, i) ==> LastTxt(log, name) == Some(log[i])
    ensures (forall j :: 0 <= j < |log| && log[j].Txt? ==> ToLower(log[j].name) != name) ==> LastTxt(log, name) == None
  {
    if log != [] {
      var front := log[..|log| - 1];
      LastTxtAt(front, name, i);
      assert i < |front| && IsLastTxt(log, name, i) ==> IsLastTxt(front, name, i);
    }
  }

  /** Host and port are those of the last SRV record, the host in lower case; the addresses are all of that host's. */
  lemma InstancePlace(query: string, service: string, log: seq<Record>, fqdn: string, i: nat)
    ensures var n := InstanceOf(query, service, log, fqdn);
            && n.service == service
            && (IsLastSrv(log, fqdn, i) ==>
                  && n.host == ToLower(log[i].target) && n.port == log[i].port
                  && Ascending(n.addresses, Less)
                  && forall text :: text in n.addresses <==>
                       exists j :: 0 <= j < |log| && log[j].Address? && log[j].text == text
                                   && ToLower(log[j].name) == n.host)
            && ((forall j :: 0 <= j < |log| && log[j].Srv? ==> ToLower(log[j].name) != fqdn) ==>
                  n.host == "" && n.port == 0 && n.addresses == [])
  {
    LastSrvAt(log, fqdn, i);
    if IsLastSrv(log, fqdn, i) {
      var host := ToLower(log[i].target);
      AddressesAscend(log, host);
      forall text
        ensures Answered(log, host, text) <==>
                exists j :: 0 <= j < |log| && log[j].Address? && log[j].text == text && ToLower(log[j].name) == host
      {
        AnsweredIs(log, host, text);
      }
    }
  }

  lemma AnsweredIs(log: seq<Record>, host: string, text: string)
    ensures Answered(log, host, text) <==>
            exists j :: 0 <= j < |log| && log[j].Address? && log[j].text == text && ToLower(log[j].name) == host
  {
    assert forall j :: 0 <= j < |log| && log[j].Address? && log[j].text == text && ToLower(log[j].name) == host ==>
        IsAddress(log[j], host, text);
  }

  /** The attributes are the entries of the last TXT record, and missing when it has none. */
  lemma InstanceText(query: string, service: string, log: seq<Record>, fqdn: string, i: nat)
    ensures var n := InstanceOf(query, service, log, fqdn);
            && (IsLastTxt(log, fqdn, i) ==>
                  n.txt == if log[i].entries == [] then None else Some(Entries(log[i].entries)))
            && ((forall j :: 0 <= j < |log| && log[j].Txt? ==> ToLower(log[j].name) != fqdn) ==> n.txt == None)
  {
    LastTxtAt(log, fqdn, i);
  }

  /** The name is the label in front of the service, in capitals. */
  lemma InstanceLabel(query: string, service: string, log: seq<Record>, front: string)
    ensures InstanceOf(query, service, log, front + "." + query).name == ToUpper(front)
  {
    var fqdn := front + "." + query;
    assert fqdn == front + ("." + query);
    assert fqdn[|front|..] == "." + query && fqdn[..|front|] == front;
  }

  /** A text entry is cut at its first equals sign; one without is all key. */
  lemma EntryIsCut(key: string, value: string)
    requires '=' !in key
    ensures KeyValue(key + "=" + value) == (key, value) && KeyValue(key) == (key, "")
  {
    CutIs(key, '=', value);
    CutNone(key, '=');
  }

  /** Of several text entries with one key the last one counts. */
  lemma {:induction false} LastEntryWins(entries: seq<string>, i: nat, key: string)
    requires i < |entries| && key != "" && KeyValue(entries[i]).0 == key
    requires forall j :: i < j < |entries| ==> KeyValue(entries[j]).0 != key
    ensures key in Entries(entries) && Entries(entries)[key] == KeyValue(entries[i]).1
  {
    if i < |entries| - 1 {
      LastEntryWins(entries[..|entries| - 1], i, key);
    }
  }

  /** So the value of a key's first entry, which RFC 6763 asks for, is kept exactly when its last entry has the same. */
  lemma FirstEntryKeptIff(entries: seq<string>, first: nat, last: nat, key: string)
    requires first <= last < |entries| && key != "" && KeyValue(entries[first]).0 == KeyValue(entries[last]).0 == key
    requires forall j :: 0 <= j < first || last < j < |entries| ==> KeyValue(entries[j]).0 != key
    ensures key in Entries(entries)
    ensures Entries(entries)[key] == KeyValue(entries[first]).1 <==>
            KeyValue(entries[first]).1 == KeyValue(entries[last]).1
  {
    LastEntryWins(entries, last, key);
  }

  /** Two entries where it is not. */
  lemma RepeatedKeyLosesFirst()
    ensures KeyValue("a=1") == ("a", "1") && "a" in Entries(["a=1", "a=2"]) && Entries(["a=1", "a=2"])["a"] == "2"
  {
    assert "a=1" == ['a'] + "=" + "1" && "a=2" == ['a'] + "=" + "2";
    OneCharacterKey('a', "1");
    OneCharacterKey('a', "2");
    LastEntryWins(["a=1", "a=2"], 1, "a");
  }

  // ---------------------------------------------------------------- attributes as RFC 6763 reads them

  function KeyAt(entries: seq<string>, i: nat): string
    requires i < |entries|
  {
    KeyValue(entries[i]).0
  }

  /** Section 6.4 of RFC 6763: keys in lower case, of repeated ones the first. */
  function FirstEntries(entries: seq<string>): map<string, string> {
    if entries == [] then map[]
    else
      var before, (key, value) := FirstEntries(entries[..|entries| - 1]), KeyValue(entries[|entries| - 1]);
      if key == "" || ToLower(key) in before then before else before[ToLower(key) := value]
  }

  /** One key for every name, with the value of its first entry. */
  ghost predicate ReadAsStandard(entries: seq<string>) {
    var read, due := Entries(entries), FirstEntries(entries);
    && (forall k, m :: k in read && m in read && ToLower(k) == ToLower(m) ==> k == m)
    && (forall k :: k in read ==> ToLower(k) in due && read[k] == due[ToLower(k)])
  }

  /** No two entries spell one name differently. */
  predicate OneSpelling(entries: seq<string>) {
    forall i, j :: 0 <= i < j < |entries| && KeyAt(entries, i) != ""
                   && ToLower(KeyAt(entries, i)) == ToLower(KeyAt(entries, j)) ==>
      KeyAt(entries, i) == KeyAt(entries, j)
  }

  predicate IsFirstOf(entries: seq<string>, key: string, i: nat) {
    i < |entries| && KeyAt(entries, i) == key && forall j :: 0 <= j < i ==> KeyAt(entries, j) != key
  }

  predicate IsLastOf(entries: seq<string>, key: string, i: nat) {
    i < |entries| && KeyAt(entries, i) == key && forall j :: i < j < |entries| ==> KeyAt(entries, j) != key
  }

  /** The first and the last entry of every key carry the same value. */
  predicate OneValue(entries: seq<string>) {
    forall i, j :: 0 <= i < |entries| && 0 <= j < |entries| && KeyAt(entries, i) != ""
                   && IsFirstOf(entries, KeyAt(entries, i), i) && IsLastOf(entries, KeyAt(entries, i), j) ==>
      KeyValue(entries[i]).1 == KeyValue(entries[j]).1
  }

  lemma {:induction false} EntriesAreNamed(entries: seq<string>, key: string)
    ensures key in Entries(entries) ==>
              key != "" && exists i, j :: IsFirstOf(entries, key, i) && IsLastOf(entries, key, j)
  {
    if entries != [] && key in Entries(entries) {
      var n := |entries| - 1;
      var front := entries[..n];
      EntriesAreNamed(front, key);
      assert forall i :: 0 <= i < n ==> KeyAt(entries, i) == KeyAt(front, i);
      if key in Entries(front) {
        var i, j :| IsFirstOf(front, key, i) && IsLastOf(front, key, j);
        assert IsFirstOf(entries, key, i);
        assert IsLastOf(entries, key, if KeyAt(entries, n) == key then n else j);
      } else {
        EntriesNameAll(front, key);
        assert IsFirstOf(entries, key, n) && IsLastOf(entries, key, n);
      }
    }
  }

  lemma {:induction false} EntriesNameAll(entries: seq<string>, key: string)
    requires key != "" && key !in Entries(entries)
    ensures forall i :: 0 <= i < |entries| ==> KeyAt(entries, i) != key
  {
    if entries != [] {
      var front := entries[..|entries| - 1];
      EntriesNameAll(front, key);
      assert forall i :: 0 <= i < |front| ==> KeyAt(entries, i) == KeyAt(front, i);
    }
  }

  /** What the standard reads: the value of the first entry of any spelling. */
  lemma {:induction false} FirstEntryIsRead(entries: seq<string>, i: nat)
    requires i < |entries| && KeyAt(entries, i) != ""
    requires forall j :: 0 <= j < i ==> ToLower(KeyAt(entries, j)) != ToLower(KeyAt(entries, i))
    ensures ToLower(KeyAt(entries, i)) in FirstEntries(entries)
    ensures FirstEntries(entries)[ToLower(KeyAt(entries, i))] == KeyValue(entries[i]).1
  {
    var front := entries[..|entries| - 1];
    assert forall j :: 0 <= j < |front| ==> KeyAt(entries, j) == KeyAt(front, j);
    if i < |front| {
      FirstEntryIsRead(front, i);
    } else {
      FirstEntriesAreNamed(front, ToLower(KeyAt(entries, i)));
    }
  }

  lemma {:induction false} FirstEntriesAreNamed(entries: seq<string>, name: string)
    ensures name in FirstEntries(entries) ==> exists i :: 0 <= i < |entries| && ToLower(KeyAt(entries, i)) == name
  {
    if entries != [] {
      var n := |entries| - 1;
      FirstEntriesAreNamed(entries[..n], name);
      assert forall i :: 0 <= i < n ==> KeyAt(entries, i) == KeyAt(entries[..n], i);
      if name in FirstEntries(entries) && name !in FirstEntries(entries[..n]) {
        assert ToLower(KeyAt(entries, n)) == name;
      }
    }
  }

  /** A key of one spelling: both readings, told from its first and its last entry. */
  lemma BothReadings(entries: seq<string>, key: string, i: nat, j: nat)
    requires OneSpelling(entries) && key != "" && IsFirstOf(entries, key, i) && IsLastOf(entries, key, j)
    ensures key in Entries(entries) && Entries(entries)[key] == KeyValue(entries[j]).1
    ensures ToLower(key) in FirstEntries(entries) && FirstEntries(entries)[ToLower(key)] == KeyValue(entries[i]).1
  {
    forall h | j < h < |entries|
      ensures KeyValue(entries[h]).0 != key
    {
      assert KeyAt(entries, h) != key;
    }
    LastEntryWins(entries, j, key);
    forall h | 0 <= h < i
      ensures ToLower(KeyAt(entries, h)) != ToLower(KeyAt(entries, i))
    {
      assert KeyAt(entries, h) != key;
      assert KeyAt(entries, h) == "" ==> ToLower(KeyAt(entries, h)) == "" && |ToLower(key)| > 0;
    }
    FirstEntryIsRead(entries, i);
  }

  /**
   The attributes are what RFC 6763 makes of the entries if and only if no name is spelled
   in two ways and the first and last entries of every key carry the same value.
   */
  lemma ReadAsStandardIff(entries: seq<string>)
    ensures ReadAsStandard(entries) <==> OneSpelling(entries) && OneValue(entries)
  {
    if ReadAsStandard(entries) {
      StandardSpelling(entries);
      forall i, j | 0 <= i < |entries| && 0 <= j < |entries| && KeyAt(entries, i) != ""
                    && IsFirstOf(entries, KeyAt(entries, i), i) && IsLastOf(entries, KeyAt(entries, i), j)
        ensures KeyValue(entries[i]).1 == KeyValue(entries[j]).1
      {
        BothReadings(entries, KeyAt(entries, i), i, j);
      }
    }
    if OneSpelling(entries) && OneValue(entries) {
      forall k | k in Entries(entries)
        ensures ToLower(k) in FirstEntries(entries) && Entries(entries)[k] == FirstEntries(entries)[ToLower(k)]
      {
        EntriesAreNamed(entries, k);
        var i, j :| IsFirstOf(entries, k, i) && IsLastOf(entries, k, j);
        BothReadings(entries, k, i, j);
      }
      forall k, m | k in Entries(entries) && m in Entries(entries) && ToLower(k) == ToLower(m)
        ensures k == m
      {
        EntriesAreNamed(entries, k);
        EntriesAreNamed(entries, m);
        var i: nat :| IsFirstOf(entries, k, i);
        var j: nat :| IsFirstOf(entries, m, j);
        assert KeyAt(entries, i) == k && KeyAt(entries, j) == m;
      }
    }
  }

  lemma StandardSpelling(entries: seq<string>)
    requires ReadAsStandard(entries)
    ensures OneSpelling(entries)
  {
    forall i, j | 0 <= i < j < |entries| && KeyAt(entries, i) != ""
                  && ToLower(KeyAt(entries, i)) == ToLower(KeyAt(entries, j))
      ensures KeyAt(entries, i) == KeyAt(entries, j)
    {
      var k, m := KeyAt(entries, i), KeyAt(entries, j);
      assert |ToLower(m)| == |m| == |k|;
      if k !in Entries(entries) {
        EntriesNameAll(entries, k);
      }
      if m !in Entries(entries) {
        EntriesNameAll(entries, m);
      }
    }
  }

  lemma OneCharacterKey(key: char, value: string)
    requires key != '='
    ensures KeyValue([key] + "=" + value) == ([key], value)
  {
    var entry := [key] + "=" + value;
    assert entry[1..] == "=" + value && ("=" + value)[1..] == value;
    assert Cut("=" + value, '=') == Some(("", value));
    assert [key] + "" == [key];
  }

  /** Two spellings of one name: both are kept. */
  lemma SpellingsAreKept()
    ensures Entries(["a=1", "A=2"]) == map["a" := "1", "A" := "2"] && !ReadAsStandard(["a=1", "A=2"])
  {
    assert "a=1" == ['a'] + "=" + "1" && "A=2" == ['A'] + "=" + "2";
    OneCharacterKey('a', "1");
    OneCharacterKey('A', "2");
    assert ["a=1", "A=2"][..1] == ["a=1"] && ["a=1"][..0] == [];
    assert Entries([]) == map[] && Entries(["a=1"]) == map["a" := "1"];
    assert ToLower("a") == ToLower("A");
  }

  // ---------------------------------------------------------------- confluence

  /** The same records, in any order, with any repetition. */
  ghost predicate SameRecords(a: seq<Record>, b: seq<Record>) { forall r :: r in a <==> r in b }

  /** An instance the log lists. */
  ghost predicate Lists(query: string, service: string, log: seq<Record>, i: Instance) {
    exists name: string :: name in Targets(query, log, false) && i == InstanceOf(query, service, log, name)
  }

  ghost predicate SrvAgree(log: seq<Record>, name: string) {
    forall r, s :: r in log && s in log && IsSrv(r, name) && IsSrv(s, name) ==> Location(Some(r)) == Location(Some(s))
  }

  ghost predicate TxtAgree(log: seq<Record>, name: string) {
    forall r, s :: r in log && s in log && IsTxt(r, name) && IsTxt(s, name) ==>
      Attributes(Some(r)) == Attributes(Some(s))
  }

  /** No instance is told two places or two sets of attributes. */
  ghost predicate Settled(query: string, log: seq<Record>) {
    forall name :: name in Targets(query, log, false) ==> SrvAgree(log, name) && TxtAgree(log, name)
  }

  /** However the records are ordered and repeated, the same instances are listed. */
  ghost predicate Confluent(query: string, service: string, log: seq<Record>) {
    forall other, i: Instance :: SameRecords(log, other) ==>
      (Lists(query, service, other, i) <==> Lists(query, service, log, i))
  }

  lemma {:induction false} LastSrvIsOne(log: seq<Record>, name: string)
    ensures LastSrv(log, name).Some? ==> LastSrv(log, name).value in log && IsSrv(LastSrv(log, name).value, name)
    ensures LastSrv(log, name).None? ==> forall r :: r in log ==> !IsSrv(r, name)
  {
    if log != [] && !IsSrv(log[|log| - 1], name) {
      LastSrvIsOne(log[..|log| - 1], name);
      assert log == log[..|log| - 1] + [log[|log| - 1]];
    }
  }

  lemma {:induction false} LastTxtIsOne(log: seq<Record>, name: string)
    ensures LastTxt(log, name).Some? ==> LastTxt(log, name).value in log && IsTxt(LastTxt(log, name).value, name)
    ensures LastTxt(log, name).None? ==> forall r :: r in log ==> !IsTxt(r, name)
  {
    if log != [] && !IsTxt(log[|log| - 1], name) {
      LastTxtIsOne(log[..|log| - 1], name);
      assert log == log[..|log| - 1] + [log[|log| - 1]];
    }
  }

  lemma SameTargets(query: string, a: seq<Record>, b: seq<Record>, name: string)
    requires SameRecords(a, b) && name in Targets(query, a, false)
    ensures name in Targets(query, b, false)
  {
    TargetsAreDistinct(query, a, false);
    TargetsAreDistinct(query, b, false);
    var i :| 0 <= i < |a| && Names(query, a[i], false) && ToLower(a[i].target) == name;
    assert a[i] in b;
    var j :| 0 <= j < |b| && b[j] == a[i];
    assert Pointed(query, b, false, name);
  }

  lemma SameAddresses(a: seq<Record>, b: seq<Record>, host: string)
    requires SameRecords(a, b)
    ensures Sort(HostAddresses(a, host), Less) == Sort(HostAddresses(b, host), Less)
  {
    AddressesAscend(a, host);
    AddressesAscend(b, host);
    TextOrderIsStrict();
    forall text
      ensures Answered(a, host, text) <==> Answered(b, host, text)
    {
      SameAnswer(a, b, host, text);
      SameAnswer(b, a, host, text);
    }
    AscendingIsUnique(Sort(HostAddresses(a, host), Less), Sort(HostAddresses(b, host), Less), Less);
  }

  lemma SameAnswer(a: seq<Record>, b: seq<Record>, host: string, text: string)
    requires SameRecords(a, b)
    ensures Answered(a, host, text) ==> Answered(b, host, text)
  {
    if i :| 0 <= i < |a| && IsAddress(a[i], host, text) {
      assert a[i] in b;
      var j :| 0 <= j < |b| && b[j] == a[i];
      assert IsAddress(b[j], host, text);
    }
  }

  lemma SameSrv(a: seq<Record>, b: seq<Record>, name: string)
    requires SameRecords(a, b) && SrvAgree(a, name)
    ensures Location(LastSrv(a, name)) == Location(LastSrv(b, name)) && LastSrv(a, name).Some? == LastSrv(b, name).Some?
  {
    LastSrvIsOne(a, name);
    LastSrvIsOne(b, name);
    if LastSrv(a, name).Some? && LastSrv(b, name).Some? {
      var r, s := LastSrv(a, name).value, LastSrv(b, name).value;
      assert r in a && s in a && IsSrv(r, name) && IsSrv(s, name);
    }
  }

  lemma SameTxt(a: seq<Record>, b: seq<Record>, name: string)
    requires SameRecords(a, b) && TxtAgree(a, name)
    ensures Attributes(LastTxt(a, name)) == Attributes(LastTxt(b, name))
  {
    LastTxtIsOne(a, name);
    LastTxtIsOne(b, name);
    if LastTxt(a, name).Some? && LastTxt(b, name).Some? {
      var r, s := LastTxt(a, name).value, LastTxt(b, name).value;
      assert r in a && s in a && IsTxt(r, name) && IsTxt(s, name);
    }
  }

  lemma SameInstance(query: string, service: string, a: seq<Record>, b: seq<Record>, name: string)
    requires SameRecords(a, b) && SrvAgree(a, name) && TxtAgree(a, name)
    ensures InstanceOf(query, service, a, name) == InstanceOf(query, service, b, name)
  {
    SameSrv(a, b, name);
    SameTxt(a, b, name);
    SameAddresses(a, b, Location(LastSrv(a, name)).0);
  }

  /** Settled records are listed the same whatever their order, repetition or split. */
  lemma SettledIsConfluent(query: string, service: string, log: seq<Record>)
    requires Settled(query, log)
    ensures Confluent(query, service, log)
  {
    forall other, i: Instance | SameRecords(log, other)
      ensures Lists(query, service, other, i) <==> Lists(query, service, log, i)
    {
      if name: string :| name in Targets(query, log, false) && i == InstanceOf(query, service, log, name) {
        SameTargets(query, log, other, name);
        SameInstance(query, service, log, other, name);
      }
      if name: string :| name in Targets(query, other, false) && i == InstanceOf(query, service, other, name) {
        SameTargets(query, other, log, name);
        SameInstance(query, service, log, other, name);
      }
    }
  }

  lemma UpperOfLower(a: string, b: string)
    requires ToUpper(ToLower(a)) == ToUpper(ToLower(b))
    ensures ToLower(a) == ToLower(b)
  {
    forall i | 0 <= i < |a|
      ensures |a| == |b| && LowerChar(a[i]) == LowerChar(b[i])
    {
      assert |ToUpper(ToLower(a))| == |a| && |ToUpper(ToLower(b))| == |b|;
      assert ToUpper(ToLower(a))[i] == UpperChar(LowerChar(a[i]));
      assert ToUpper(ToLower(b))[i] == UpperChar(LowerChar(b[i]));
    }
  }

  /** Names printed in capitals can be told apart, because names are kept in lower case. */
  lemma NamesAreDistinct(query: string, a: string, b: string)
    requires HasSuffix(ToLower(a), "." + query) && HasSuffix(ToLower(b), "." + query)
    requires InstanceName(query, ToLower(a)) == InstanceName(query, ToLower(b))
    ensures ToLower(a) == ToLower(b)
  {
    var m, n := |a| - |query| - 1, |b| - |query| - 1;
    var suffix := "." + query;
    assert ToLower(a)[..m] == ToLower(a[..m]) && ToLower(b)[..n] == ToLower(b[..n]);
    UpperOfLower(a[..m], b[..n]);
    assert ToLower(a) == ToLower(a)[..m] + suffix && ToLower(b) == ToLower(b)[..n] + suffix;
  }

  /** What a log lists under a name is the one instance of that name. */
  lemma ListedUnder(query: string, service: string, log: seq<Record>, name: string, i: Instance)
    requires name in Targets(query, log, false) && Lists(query, service, log, i) && i.name == InstanceName(query, name)
    ensures i == InstanceOf(query, service, log, name)
  {
    var other: string :| other in Targets(query, log, false) && i == InstanceOf(query, service, log, other);
    TargetsAreDistinct(query, log, false);
    var j :| 0 <= j < |log| && Names(query, log[j], false) && ToLower(log[j].target) == name;
    var k :| 0 <= k < |log| && Names(query, log[k], false) && ToLower(log[k].target) == other;
    NamesAreDistinct(query, log[j].target, log[k].target);
  }

  /** In a confluent log the last word does not matter. */
  lemma LastWordIsIdle(query: string, service: string, log: seq<Record>, r: Record, name: string)
    requires Confluent(query, service, log) && r in log && name in Targets(query, log, false)
    ensures InstanceOf(query, service, log + [r], name) == InstanceOf(query, service, log, name)
  {
    var i := InstanceOf(query, service, log + [r], name);
    assert Lists(query, service, log + [r], i) && Lists(query, service, log, i);
    ListedUnder(query, service, log, name, i);
  }

  lemma ConfluentIsSettled(query: string, service: string, log: seq<Record>)
    requires Confluent(query, service, log)
    ensures Settled(query, log)
  {
    forall name | name in Targets(query, log, false)
      ensures SrvAgree(log, name) && TxtAgree(log, name)
    {
      forall r, s | r in log && s in log && IsSrv(r, name) && IsSrv(s, name)
        ensures Location(Some(r)) == Location(Some(s))
      {
        LastWordIsIdle(query, service, log, r, name);
        LastWordIsIdle(query, service, log, s, name);
      }
      forall r, s | r in log && s in log && IsTxt(r, name) && IsTxt(s, name)
        ensures Attributes(Some(r)) == Attributes(Some(s))
      {
        LastWordIsIdle(query, service, log, r, name);
        LastWordIsIdle(query, service, log, s, name);
      }
    }
  }

  /**
   The instances do not depend on the order of the records exactly when no instance is told
   two places or two sets of attributes.
   */
  lemma ConfluentIffSettled(query: string, service: string, log: seq<Record>)
    ensures Confluent(query, service, log) <==> Settled(query, log)
  {
    if Settled(query, log) {
      SettledIsConfluent(query, service, log);
    }
    if Confluent(query, service, log) {
      ConfluentIsSettled(query, service, log);
    }
  }

  /** A log that is not: one name, two places, and the order of the two decides. */
  lemma OrderShows()
    ensures var name, here, there := Ptr("a.s"), Srv("a.s", "x", 1), Srv("a.s", "y", 2);
            && SameRecords([name, here, there], [name, there, here])
            && exists i: Instance :: Lists("s", "s", [name, here, there], i) && !Lists("s", "s", [name, there, here], i)
  {
    var name, here, there := Ptr("a.s"), Srv("a.s", "x", 1), Srv("a.s", "y", 2);
    assert ToLower("a.s") == "a.s" && "a.s"[1..] == ".s";
    PortsDiffer("s", "s", name, here, there, "a.s");
  }

  /** The same for any one name told two ports. */
  lemma PortsDiffer(query: string, service: string, name: Record, here: Record, there: Record, fqdn: string)
    requires Names(query, name, false) && ToLower(name.target) == fqdn && IsSrv(here, fqdn) && IsSrv(there, fqdn)
    requires !Names(query, here, false) && !Names(query, there, false) && !IsSrv(name, fqdn)
    requires Location(Some(here)).1 != Location(Some(there)).1
    ensures SameRecords([name, here, there], [name, there, here])
    ensures exists i: Instance :: Lists(query, service, [name, here, there], i)
                                  && !Lists(query, service, [name, there, here], i)
  {
    var one, two := [name, here, there], [name, there, here];
    TwoPlaces(query, name, here, there, fqdn);
    TwoPlaces(query, name, there, here, fqdn);
    var i, j := InstanceOf(query, service, one, fqdn), InstanceOf(query, service, two, fqdn);
    assert i.port == Location(Some(there)).1 && j.port == Location(Some(here)).1;
    assert Lists(query, service, one, i);
  }

  lemma TwoPlaces(query: string, name: Record, first: Record, second: Record, fqdn: string)
    requires Names(query, name, false) && ToLower(name.target) == fqdn && IsSrv(first, fqdn) && IsSrv(second, fqdn)
    requires !Names(query, first, false) && !Names(query, second, false)
    ensures Targets(query, [name, first, second], false) == [fqdn]
    ensures LastSrv([name, first, second], fqdn) == Some(second)
  {
    var log := [name, first, second];
    assert log[..2] == [name, first] && log[..2][..1] == [name] && [name][..0] == [];
    assert Targets(query, [name], false) == [fqdn];
    assert Targets(query, log[..2], false) == [fqdn];
  }
}
