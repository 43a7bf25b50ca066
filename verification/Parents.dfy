/** The parent of a child as the dashboard finds it (web/static/app.js), beside what the MCP tools find. */
module Parents {
  import opened Wrappers
  import opened Text
  import opened Sorting
  import opened Rloc
  import Hex

  // ---------------------------------------------------------------- what the dashboard does

  /** A digit or a lower-case letter. */
  predicate IsKeyChar(c: char) { 'a' <= c <= 'z' || '0' <= c <= '9' }

  /** The dashboard compares nothing but letters and digits. */
  function TopologyKey(text: string): string { Filter(Clean(text), IsKeyChar) }

  predicate IsDirect(candidate: Device, parent: string) {
    && parent != ""
    && (TopologyKey(candidate.id) == parent || TopologyKey(candidate.extendedAddress) == parent
        || TopologyKey(candidate.rloc16) == parent
        || (candidate.routerId.Some? && TopologyKey(Itoa(candidate.routerId.value)) == parent))
  }

  /** A parent of digits alone is taken for a router ID, reported or read from the router's locator. */
  predicate IsNumbered(candidate: Device, parent: string) {
    IsDecimal(parent) && RouterId(candidate) == Some(DecimalNumber(parent))
  }

  function FirstWhere<T>(items: seq<T>, test: T -> bool): (found: Option<nat>)
    ensures match found
            case Some(k) => k < |items| && test(items[k]) && forall j :: 0 <= j < k ==> !test(items[j])
            case None => forall j :: 0 <= j < |items| ==> !test(items[j])
  {
    if items == [] then None
    else if test(items[0]) then Some(0)
    else match FirstWhere(items[1..], test) case None => None case Some(k) => Some(k + 1)
  }

  function DirectFor(child: Device): Device -> bool {
    d => IsRouter(d) && IsDirect(d, TopologyKey(child.parent))
  }

  function NumberedFor(child: Device): Device -> bool {
    d => IsRouter(d) && IsNumbered(d, TopologyKey(child.parent))
  }

  function DerivedFor(child: Device): Device -> bool { d => IsRouter(d) && IsDerived(d, child) }

  function FirstDirect(child: Device, items: seq<Device>): Option<nat> { FirstWhere(items, DirectFor(child)) }

  function FirstNumbered(child: Device, items: seq<Device>): Option<nat> { FirstWhere(items, NumberedFor(child)) }

  function FirstByLocator(child: Device, items: seq<Device>): Option<nat> { FirstWhere(items, DerivedFor(child)) }

  /** Reported in some spelling, else reported as a router ID, else derived. */
  function TopologyParent(child: Device, items: seq<Device>): Option<nat> {
    if FirstDirect(child, items).Some? then FirstDirect(child, items)
    else if FirstNumbered(child, items).Some? then FirstNumbered(child, items)
    else FirstByLocator(child, items)
  }

  /** How a router can be a child's parent: reported in some spelling, or by its ID, or derived from the locator. */
  datatype Way = Reported | Numbered | Derived

  predicate Holds(way: Way, child: Device, d: Device) {
    var parent := TopologyKey(child.parent);
    IsRouter(d) &&
    match way
    case Reported => IsDirect(d, parent)
    case Numbered => parent != "" && (forall i :: 0 <= i < |parent| ==> '0' <= parent[i] <= '9')
                     && RouterId(d) == Some(DecimalNumber(parent))
    case Derived => IsDerived(d, child)
  }

  /** The first router that is the parent in this way. */
  ghost predicate IsFirstBy(way: Way, child: Device, items: seq<Device>, k: nat) {
    k < |items| && Holds(way, child, items[k]) && forall j :: 0 <= j < k ==> !Holds(way, child, items[j])
  }

  ghost predicate NoneBy(way: Way, child: Device, items: seq<Device>) {
    forall j :: 0 <= j < |items| ==> !Holds(way, child, items[j])
  }

  /** The first router reported in some spelling, failing any the first by its ID, failing any the first derived one. */
  lemma TopologyParentIs(child: Device, items: seq<Device>)
    ensures match TopologyParent(child, items)
            case None =>
              NoneBy(Reported, child, items) && NoneBy(Numbered, child, items) && NoneBy(Derived, child, items)
            case Some(k) =>
              || IsFirstBy(Reported, child, items, k)
              || (NoneBy(Reported, child, items)
                  && (|| IsFirstBy(Numbered, child, items, k)
                      || (NoneBy(Numbered, child, items) && IsFirstBy(Derived, child, items, k))))
  {
    FirstIs(Reported, child, items, DirectFor(child));
    FirstIs(Numbered, child, items, NumberedFor(child));
    FirstIs(Derived, child, items, DerivedFor(child));
  }

  lemma FirstIs(way: Way, child: Device, items: seq<Device>, test: Device -> bool)
    requires forall d: Device :: test(d) <==> Holds(way, child, d)
    ensures match FirstWhere(items, test)
            case None => NoneBy(way, child, items)
            case Some(k) => IsFirstBy(way, child, items, k)
  {
  }

  // ---------------------------------------------------------------- where the two agree

  /** Letters and digits only, and not the prefix "0X": both ways of cleaning come to the same. */
  predicate Plain(text: string) {
    && (forall i :: 0 <= i < |text| ==> 'a' <= text[i] <= 'z' || 'A' <= text[i] <= 'Z' || '0' <= text[i] <= '9')
    && !(|text| >= 2 && text[..2] == "0X")
  }

  predicate PlainDevice(d: Device) { Plain(d.id) && Plain(d.extendedAddress) && Plain(d.rloc16) }

  predicate AllPlain(child: Device, items: seq<Device>) {
    Plain(child.parent) && forall i :: 0 <= i < |items| ==> PlainDevice(items[i])
  }

  lemma {:induction false} AllAreKept(s: string)
    requires forall i :: 0 <= i < |s| ==> IsKeyChar(s[i])
    ensures Filter(s, IsKeyChar) == s
  {
    if s != "" {
      AllAreKept(s[1..]);
      assert s == [s[0]] + s[1..];
    }
  }

  lemma PlainIsClean(text: string)
    requires Plain(text)
    ensures TrimSpace(text) == text && TopologyKey(text) == ToLower(Hex.TrimHexPrefix(text))
  {
    forall i | 0 <= i < |text|
      ensures IsKeyChar(LowerChar(text[i])) && !IsSpace(text[i])
    {
    }
    assert TrimLeft(text) == text && TrimRight(text) == text;
    PrefixIsLower(text);
    AllAreKept(ToLower(Hex.TrimHexPrefix(text)));
  }

  lemma PrefixIsLower(text: string)
    requires Plain(text)
    ensures Hex.TrimHexPrefix(ToLower(text)) == ToLower(Hex.TrimHexPrefix(text))
  {
    var low := ToLower(text);
    if |text| >= 2 {
      assert low[..2] == [LowerChar(text[0]), LowerChar(text[1])] && text[..2] == [text[0], text[1]];
      assert low[..2] == "0x" <==> text[..2] == "0x" by {
        assert LowerChar(text[0]) == '0' <==> text[0] == '0';
        assert LowerChar(text[1]) == 'x' <==> text[1] == 'x' || text[1] == 'X';
      }
    }
  }

  lemma DigitsStay(s: string)
    requires IsDecimal(s)
    ensures Plain(s) && ToLower(s) == s && Hex.TrimHexPrefix(s) == s
  {
    assert forall i :: 0 <= i < |s| ==> LowerChar(s[i]) == s[i];
    if |s| >= 2 {
      assert s[..2][1] == s[1] && "0X"[1] == 'X' && "0x"[1] == 'x';
    }
  }

  lemma PlainDecimal(n: nat)
    ensures Plain(Itoa(n)) && ToLower(Itoa(n)) == Itoa(n) && Hex.TrimHexPrefix(Itoa(n)) == Itoa(n)
  {
    ItoaReadsBack(n);
    DigitsStay(Itoa(n));
  }

  lemma ItoaIsPlain(n: nat)
    ensures TopologyKey(Itoa(n)) == Itoa(n)
  {
    PlainDecimal(n);
    PlainIsClean(Itoa(n));
  }

  /** On plain text the dashboard and the tools compare alike. */
  lemma DirectIsReported(child: Device, candidate: Device)
    requires Plain(child.parent) && PlainDevice(candidate)
    ensures TopologyKey(child.parent) == ReportedParent(child)
    ensures IsDirect(candidate, TopologyKey(child.parent)) == IsReported(candidate, ReportedParent(child))
  {
    PlainIsClean(child.parent);
    PlainIsClean(candidate.id);
    PlainIsClean(candidate.extendedAddress);
    PlainIsClean(candidate.rloc16);
    if candidate.routerId.Some? {
      ItoaIsPlain(candidate.routerId.value);
    }
  }

  /**
   On plain text the tools find the parent the dashboard shows if and only if some router
   is reported in a spelling of its own, or no router has the parent's text as its ID, or the
   first that has is the one derived anyway.
   */
  lemma ParentsAgreeIff(child: Device, items: seq<Device>, found: Option<nat>)
    requires AllPlain(child, items) && IsBest(items, d => MatchOf(d, child), found)
    ensures found == TopologyParent(child, items) <==>
            || FirstDirect(child, items).Some?
            || FirstNumbered(child, items).None?
            || FirstNumbered(child, items) == FirstByLocator(child, items)
  {
    forall i | 0 <= i < |items|
      ensures MatchOf(items[i], child) == Match(DirectFor(child)(items[i]), DerivedFor(child)(items[i]))
    {
      DirectIsReported(child, items[i]);
    }
    BestIsFirst(items, d => MatchOf(d, child), DirectFor(child), DerivedFor(child), found);
  }

  /** The best candidate is the first reported, else the first derived. */
  lemma BestIsFirst<T>(items: seq<T>, test: T -> Match, direct: T -> bool, derived: T -> bool, found: Option<nat>)
    requires IsBest(items, test, found)
    requires forall i :: 0 <= i < |items| ==> test(items[i]) == Match(direct(items[i]), derived(items[i]))
    ensures found == if FirstWhere(items, direct).Some? then FirstWhere(items, direct) else FirstWhere(items, derived)
  {
  }

  // ---------------------------------------------------------------- where they differ

  /** A child that reports no more than a router ID. */
  function ChildOf(parent: string): Device { Device("", false, "", "", parent, None, false) }

  /** A router that reports no more than a locator. */
  function RouterAt(id: string, n: nat): Device
    requires n < 0x40
  {
    Device(id, true, "", "0x" + Hex4(0x400 * n), "", None, false)
  }

  lemma NothingIsClean()
    ensures TopologyKey("") == "" && ParseRloc("") == None
  {
    PlainIsClean("");
  }

  lemma DigitIsKeyChar(v: nat)
    requires v < 16
    ensures IsKeyChar(Hex.Digit(v))
  {
  }

  lemma LocatorIsClean(m: nat)
    requires m < 0x1_0000
    ensures TopologyKey("0x" + Hex4(m)) == Hex4(m)
  {
    CleanHex4(m);
    DigitIsKeyChar(m / 16 / 16 / 16);
    DigitIsKeyChar(m / 16 / 16 % 16);
    DigitIsKeyChar(m / 16 % 16);
    DigitIsKeyChar(m % 16);
    AllAreKept(Hex4(m));
  }

  lemma LocatorIsNoDecimal(n: nat)
    requires n < 0x40
    ensures RouterId(RouterAt("", n)) == Some(n) && TopologyKey("0x" + Hex4(0x400 * n)) != Itoa(n)
  {
    var m := 0x400 * n;
    LocatorIsClean(m);
    PrintedReadsBack(m, "0x" + Hex4(m));
    ItoaReadsBack(n);
    assert m / 0x400 == n;
  }

  /**
   A parent given as the ID of a router that reports no ID: the dashboard finds it, the
   tools do not, whatever the ID.
   */
  lemma NumberIsMissed(n: nat, id: string, found: Option<nat>)
    requires n < 0x40 && Plain(id) && TopologyKey(id) != Itoa(n)
    requires IsBest([RouterAt(id, n)], d => MatchOf(d, ChildOf(Itoa(n))), found)
    ensures found == None && TopologyParent(ChildOf(Itoa(n)), [RouterAt(id, n)]) == Some(0)
  {
    NumberIsNoMatch(n, id);
    OnlyNumbered(n, id);
    var child, router := ChildOf(Itoa(n)), RouterAt(id, n);
    FirstOfOne(router, DirectFor(child));
    FirstOfOne(router, NumberedFor(child));
  }

  lemma FirstOfOne(d: Device, test: Device -> bool)
    ensures FirstWhere([d], test) == if test(d) then Some(0) else None
  {
    assert [d][1..] == [];
  }

  lemma OnlyNumbered(n: nat, id: string)
    requires n < 0x40 && Plain(id) && TopologyKey(id) != Itoa(n)
    ensures var child, router := ChildOf(Itoa(n)), RouterAt(id, n);
            !DirectFor(child)(router) && NumberedFor(child)(router)
  {
    NothingIsClean();
    LocatorIsNoDecimal(n);
    ItoaIsPlain(n);
    ItoaReadsBack(n);
    assert RouterId(RouterAt(id, n)) == RouterId(RouterAt("", n));
  }

  lemma NumberIsNoMatch(n: nat, id: string)
    requires n < 0x40 && Plain(id) && TopologyKey(id) != Itoa(n)
    ensures MatchOf(RouterAt(id, n), ChildOf(Itoa(n))) == Match(false, false)
  {
    NothingIsClean();
    ReportedDecimal(n);
    PlainIsClean(id);
    LocatorKey(n);
  }

  lemma ReportedDecimal(n: nat)
    ensures ReportedParent(ChildOf(Itoa(n))) == Itoa(n)
  {
    PlainDecimal(n);
    PlainIsClean(Itoa(n));
    ItoaIsPlain(n);
  }

  lemma LocatorKey(n: nat)
    requires n < 0x40
    ensures !KeyMatches("0x" + Hex4(0x400 * n), Itoa(n))
  {
    var s := "0x" + Hex4(0x400 * n);
    assert s[..2] == "0x" && s[2..] == Hex4(0x400 * n);
    ItoaReadsBack(n);
  }

  /** Texts that are not plain: an address with a colon in it, reported without. */
  lemma ColonIsMissed(a: string, b: string, found: Option<nat>)
    requires IsKey(a) && IsKey(b)
    requires IsBest([Device(a + ":" + b, true, "", "", "", None, false)], d => MatchOf(d, ChildOf(a + b)), found)
    ensures found == None
    ensures TopologyParent(ChildOf(a + b), [Device(a + ":" + b, true, "", "", "", None, false)]) == Some(0)
  {
    var child, router := ChildOf(a + b), Device(a + ":" + b, true, "", "", "", None, false);
    NothingIsClean();
    ColonIsDropped(a, b);
    assert IsDirect(router, TopologyKey(child.parent));
    assert MatchOf(router, child) == Match(false, false) by {
      assert !KeyMatches("", a + b);
    }
  }

  /** Letters and digits, at least two, and no prefix. */
  predicate IsKey(s: string) { |s| >= 2 && s[0] != '0' && forall i :: 0 <= i < |s| ==> IsKeyChar(s[i]) }

  lemma KeyIsClean(s: string)
    requires |s| >= 2 && s[0] != '0' && !IsSpace(s[0]) && !IsSpace(s[|s| - 1])
    requires forall i :: 0 <= i < |s| ==> LowerChar(s[i]) == s[i]
    ensures TrimSpace(s) == s && ToLower(s) == s && Hex.TrimHexPrefix(s) == s && Clean(s) == s
  {
    assert TrimLeft(s) == s && TrimRight(s) == s;
    assert s[..2][0] == s[0] && "0x"[0] == '0';
  }

  lemma ColonIsDropped(a: string, b: string)
    requires IsKey(a) && IsKey(b)
    ensures TopologyKey(a + ":" + b) == a + b == TopologyKey(a + b) == ReportedParent(ChildOf(a + b))
    ensures a + b != "" && !KeyMatches(a + ":" + b, a + b)
  {
    ColonVanishes(a, b);
    KeyIsClean(a + b);
    KeyIsClean(a + ":" + b);
    AllAreKept(a + b);
    assert |a + ":" + b| == |a + b| + 1;
  }

  lemma ColonVanishes(a: string, b: string)
    requires IsKey(a) && IsKey(b)
    ensures Filter(a + ":" + b, IsKeyChar) == a + b
  {
    FilterJoins(a + ":", b, IsKeyChar);
    FilterSnoc(a, ':', IsKeyChar);
    AllAreKept(a);
    AllAreKept(b);
    assert a + [] == a;
  }
}
