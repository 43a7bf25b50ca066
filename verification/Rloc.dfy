/**
 Routing locators as text.

 The topology builder prints them (internal/otbr/client.go); the builder itself, the
 MCP tools (internal/mcpserver/server.go) and the dashboard (web/static/app.js) read
 them back. A child's locator carries the ID of its router, which is how the child's
 parent is found when no locator of a parent is reported.
 */
module Rloc {
  import opened Wrappers
  import opened Text
  import opened TextFacts
  import Hex

  /** `%04x` of a 16-bit value. */
  function Hex4(n: nat): (s: string)
    requires n < 0x1_0000
    ensures |s| == 4
  {
    [Hex.Digit(n / 16 / 16 / 16), Hex.Digit(n / 16 / 16 % 16), Hex.Digit(n / 16 % 16), Hex.Digit(n % 16)]
  }

  /** Every reader first trims, lower-cases and drops the prefix. */
  function Clean(text: string): string { Hex.TrimHexPrefix(ToLower(TrimSpace(text))) }

  /** The longest run of digits at the front. */
  function DigitsOf(s: string): (digits: string)
    ensures Hex.IsHex(digits)
  {
    if s != "" && Hex.Value(s[0]).Some? then [s[0]] + DigitsOf(s[1..]) else ""
  }

  /** The topology builder reads the digits at the front and ignores what follows; the value must fit 63 bits. */
  function ParseRloc16(text: string): Option<nat> {
    var digits := DigitsOf(Clean(text));
    if digits == "" || Hex.Number(digits) >= 0x8000_0000_0000_0000 then None else Some(Hex.Number(digits))
  }

  /** The MCP tools and the dashboard take one to four digits and nothing else. */
  function ParseRloc(text: string): Option<nat> {
    var clean := Clean(text);
    if clean == "" || |clean| > 4 || !Hex.IsHex(clean) then None else Some(Hex.Number(clean))
  }

  /** The router a locator belongs to, as the dashboard masks it. */
  function RouterIdFromRloc(text: string): Option<nat> {
    match ParseRloc(text)
    case None => None
    case Some(value) => Some(value % 0x1_0000 / 0x400)
  }

  /** The locator derived for a child whose own is not reported. */
  function DerivedRloc(parent: Option<nat>, childId: int): string {
    if parent.None? then "" else "0x" + Hex4((parent.value + childId) % 0x1_0000)
  }

  lemma CleanHex4(n: nat)
    requires n < 0x1_0000
    ensures Clean("0x" + Hex4(n)) == Hex4(n)
  {
    var s := "0x" + Hex4(n);
    assert s[0] == '0' && |s| == 6 && !IsSpace(s[5]);
    assert TrimLeft(s) == s && TrimRight(s) == s;
    assert ToLower(s) == s;
    assert s[..2] == "0x" && s[2..] == Hex4(n);
  }

  lemma NumberSnoc(s: string, c: char)
    requires Hex.IsHex(s) && Hex.Value(c).Some?
    ensures Hex.IsHex(s + [c]) && Hex.Number(s + [c]) == 16 * Hex.Number(s) + Hex.Value(c).value
  {
    assert (s + [c])[..|s|] == s;
  }

  lemma FourDigits(a: char, b: char, c: char, d: char)
    requires Hex.Value(a).Some? && Hex.Value(b).Some? && Hex.Value(c).Some? && Hex.Value(d).Some?
    ensures Hex.IsHex([a, b, c, d])
    ensures Hex.Number([a, b, c, d]) ==
            16 * (16 * (16 * Hex.Value(a).value + Hex.Value(b).value) + Hex.Value(c).value) + Hex.Value(d).value
  {
    NumberSnoc("", a);
    NumberSnoc("" + [a], b);
    NumberSnoc("" + [a] + [b], c);
    NumberSnoc("" + [a] + [b] + [c], d);
    assert [a, b, c, d] == "" + [a] + [b] + [c] + [d];
  }

  lemma DigitsAddUp(n: nat)
    ensures n == 16 * (16 * (16 * (n / 16 / 16 / 16) + n / 16 / 16 % 16) + n / 16 % 16) + n % 16
  {
    var a, b := n / 16, n / 16 / 16;
    assert n == 16 * a + n % 16 && a == 16 * b + a % 16 && b == 16 * (b / 16) + b % 16;
  }

  lemma Hex4Number(n: nat)
    requires n < 0x1_0000
    ensures Hex.IsHex(Hex4(n)) && Hex.Number(Hex4(n)) == n
  {
    FourDigits(Hex.Digit(n / 16 / 16 / 16), Hex.Digit(n / 16 / 16 % 16), Hex.Digit(n / 16 % 16), Hex.Digit(n % 16));
    DigitsAddUp(n);
  }

  lemma {:induction false} AllDigits(s: string)
    requires Hex.IsHex(s)
    ensures DigitsOf(s) == s
  {
    if s != "" {
      AllDigits(s[1..]);
      assert s == [s[0]] + s[1..];
    }
  }

  lemma ShortTextReadsBack(n: nat)
    requires n < 0x1_0000
    ensures ParseRloc("0x" + Hex4(n)) == Some(n)
  {
    CleanHex4(n);
    Hex4Number(n);
  }

  lemma LongTextReadsBack(n: nat)
    requires n < 0x1_0000
    ensures ParseRloc16("0x" + Hex4(n)) == Some(n)
  {
    CleanHex4(n);
    Hex4Number(n);
    AllDigits(Hex4(n));
  }

  lemma RouterIdReadsBack(n: nat)
    requires n < 0x1_0000
    ensures RouterIdFromRloc("0x" + Hex4(n)) == Some(n / 0x400)
  {
    ShortTextReadsBack(n);
    assert n % 0x1_0000 == n;
  }

  /** Every 16-bit locator is read back by every reader. */
  lemma PrintedReadsBack(n: nat, text: string)
    requires n < 0x1_0000 && text == "0x" + Hex4(n)
    ensures ParseRloc16(text) == ParseRloc(text) == Some(n) && RouterIdFromRloc(text) == Some(n / 0x400)
  {
    ShortTextReadsBack(n);
    LongTextReadsBack(n);
    RouterIdReadsBack(n);
  }

  // ---------------------------------------------------------------- locators as they are typed

  /** White space around a locator and the case of its letters make no difference to any reader. */
  lemma SpaceIsIgnored(a: string, s: string, t: string, b: string)
    requires AllWhite(a) && AllWhite(b) && NoOuterWhite(s) && NoOuterWhite(t) && ToLower(s) == ToLower(t)
    ensures ParseRloc(a + s + b) == ParseRloc(t) && ParseRloc16(a + s + b) == ParseRloc16(t)
    ensures RouterIdFromRloc(a + s + b) == RouterIdFromRloc(t)
  {
    TrimIs(a, s, b);
    TrimIs("", t, "");
    assert "" + t + "" == t;
  }

  lemma {:induction false} FrontDigits(digits: string, rest: string)
    requires Hex.IsHex(digits) && (rest == "" || Hex.Value(rest[0]).None?)
    ensures DigitsOf(digits + rest) == digits
  {
    if digits == "" {
      assert digits + rest == rest;
    } else {
      FrontDigits(digits[1..], rest);
      assert (digits + rest)[1..] == digits[1..] + rest;
      assert digits == [digits[0]] + digits[1..];
    }
  }

  /** The topology builder reads the digits in front, if there are any and they fit 63 bits, and nothing else. */
  lemma FrontIsRead(text: string, digits: string, rest: string)
    requires Clean(text) == digits + rest && Hex.IsHex(digits) && (rest == "" || Hex.Value(rest[0]).None?)
    ensures ParseRloc16(text) ==
            if digits == "" || Hex.Number(digits) >= 0x8000_0000_0000_0000 then None else Some(Hex.Number(digits))
  {
    FrontDigits(digits, rest);
  }

  /** The other readers want one to four digits and nothing behind them. */
  lemma FourDigitsAtMost(text: string, digits: string, rest: string)
    requires Clean(text) == digits + rest && Hex.IsHex(digits) && (rest == "" || Hex.Value(rest[0]).None?)
    ensures ParseRloc(text) == if rest == "" && 1 <= |digits| <= 4 then Some(Hex.Number(digits)) else None
  {
    if rest == "" {
      assert digits + rest == digits;
    } else {
      assert (digits + rest)[|digits|] == rest[0];
      assert !Hex.IsHex(digits + rest);
    }
  }

  lemma DerivedText(parent: nat, childId: int, n: nat)
    requires n == (parent + childId) % 0x1_0000
    ensures DerivedRloc(Some(parent), childId) == "0x" + Hex4(n)
  {
  }

  /** A derived locator is the sum of the parent's and the child ID in 16 bits; without a parent there is none. */
  lemma DerivedIsSum(parent: nat, childId: int)
    ensures ParseRloc(DerivedRloc(Some(parent), childId)) == Some((parent + childId) % 0x1_0000)
    ensures DerivedRloc(None, childId) == ""
  {
    DerivedText(parent, childId, (parent + childId) % 0x1_0000);
    ShortTextReadsBack((parent + childId) % 0x1_0000);
  }

  // ---------------------------------------------------------------- finding a parent

  /** `routerRole` says whether the reported role is a router's, a leader's or a border router's. */
  datatype Device = Device(id: string, routerRole: bool, extendedAddress: string, rloc16: string, parent: string,
                           routerId: Option<nat>, isBorderRouter: bool)

  /** Its role or its flag says so, or its locator leaves no room for a child ID. */
  predicate IsRouter(d: Device) {
    d.isBorderRouter || d.routerRole || (ParseRloc(d.rloc16).Some? && ParseRloc(d.rloc16).value % 0x400 == 0)
  }

  /** Decimal text of a router ID. */
  function Itoa(n: nat): string {
    if n < 10 then [('0' as int + n) as char] else Itoa(n / 10) + [('0' as int + n % 10) as char]
  }

  predicate IsDecimal(s: string) { s != "" && forall i :: 0 <= i < |s| ==> '0' <= s[i] <= '9' }

  function DecimalNumber(s: string): nat
    requires forall i :: 0 <= i < |s| ==> '0' <= s[i] <= '9'
  {
    if s == "" then 0 else 10 * DecimalNumber(s[..|s| - 1]) + (s[|s| - 1] as int - '0' as int)
  }

  lemma {:induction false} ItoaReadsBack(n: nat)
    ensures IsDecimal(Itoa(n)) && DecimalNumber(Itoa(n)) == n && (n < 100 ==> |Itoa(n)| <= 2)
  {
    if n >= 10 {
      ItoaReadsBack(n / 10);
      assert Itoa(n)[..|Itoa(n)| - 1] == Itoa(n / 10);
    }
  }

  /** The parent a child reports, cleaned for comparing. */
  function ReportedParent(child: Device): string { ToLower(Hex.TrimHexPrefix(TrimSpace(child.parent))) }

  predicate KeyMatches(key: string, parent: string) { key != "" && ToLower(Hex.TrimHexPrefix(key)) == parent }

  predicate IsReported(candidate: Device, parent: string) {
    && parent != ""
    && (KeyMatches(candidate.id, parent) || KeyMatches(candidate.extendedAddress, parent)
      || KeyMatches(candidate.rloc16, parent)
        || (candidate.routerId.Some? && Itoa(candidate.routerId.value) == parent))
  }

  function RouterId(d: Device): Option<nat> {
    if d.routerId.Some? then d.routerId
    else match ParseRloc(d.rloc16) case None => None case Some(value) => Some(value / 0x400)
  }

  predicate IsDerived(candidate: Device, child: Device) {
    && ParseRloc(child.rloc16).Some?
    && RouterId(candidate) == Some(ParseRloc(child.rloc16).value / 0x400)
  }

  /** Same text but for the prefix and the case of letters. */
  predicate SameSpelling(text: string, parent: string) {
    text != "" && ToLower(Hex.TrimHexPrefix(text)) == ToLower(Hex.TrimHexPrefix(parent))
  }

  /** A router by its role, by its flag, or by a locator of 16 bits whose lower ten are zero. */
  lemma IsRouterIff(d: Device, locator: Option<nat>)
    requires locator == ParseRloc(d.rloc16)
    ensures IsRouter(d) <==>
            d.isBorderRouter || d.routerRole || (locator.Some? && exists k :: 0 <= k <= 63 && locator.value == 1024 * k)
  {
    if locator.Some? {
      FitsSixteenBits(d.rloc16);
      if locator.value % 0x400 == 0 {
        assert locator.value == 1024 * (locator.value / 0x400);
      }
    }
  }

  lemma FitsSixteenBits(text: string)
    ensures ParseRloc(text).Some? ==> ParseRloc(text).value < 0x1_0000
  {
    if ParseRloc(text).Some? {
      NumberBound(Clean(text));
      PowersOfSixteen();
      GrowingPowers(|Clean(text)|, 4);
    }
  }

  function Power(n: nat): (p: nat)
    ensures p > 0
  {
    if n == 0 then 1 else 16 * Power(n - 1)
  }

  lemma PowersOfSixteen()
    ensures Power(4) == 0x1_0000
  {
    assert Power(1) == 16 && Power(2) == 0x100 && Power(3) == 0x1000;
  }

  lemma {:induction false} GrowingPowers(a: nat, b: nat)
    requires a <= b
    ensures Power(a) <= Power(b)
    decreases b - a
  {
    if a < b {
      GrowingPowers(a + 1, b);
    }
  }

  lemma {:induction false} NumberBound(s: string)
    requires Hex.IsHex(s)
    ensures Hex.Number(s) < Power(|s|)
  {
    if s != "" {
      NumberBound(s[..|s| - 1]);
    }
  }

  /**
   The child's parent, with white space around it or not, names a candidate by its ID, extended
   address or locator in any spelling, or by its router ID in decimal.
   */
  lemma IsReportedIff(candidate: Device, child: Device, a: string, parent: string, b: string)
    requires child.parent == a + parent + b && AllWhite(a) && NoOuterWhite(parent) && AllWhite(b)
    ensures IsReported(candidate, ReportedParent(child)) <==>
            && parent != "" && parent != "0x"
            && (SameSpelling(candidate.id, parent) || SameSpelling(candidate.extendedAddress, parent)
                || SameSpelling(candidate.rloc16, parent)
                || (candidate.routerId.Some? && Itoa(candidate.routerId.value) == ToLower(Hex.TrimHexPrefix(parent))))
  {
    TrimIs(a, parent, b);
    var core := Hex.TrimHexPrefix(parent);
    assert ToLower(core) == "" <==> core == "";
    if core == "" && parent != "" {
      assert parent == parent[..2] + parent[2..];
    }
    Hex.PrefixIs("");
    assert "0x" + "" == "0x";
  }

  /** The candidate's router ID, or the upper six bits of its locator without one, is the child's locator's. */
  lemma IsDerivedIff(candidate: Device, child: Device)
    ensures IsDerived(candidate, child) <==>
            && ParseRloc(child.rloc16).Some?
            && exists k: nat, low: nat :: IsOfRouter(ParseRloc(child.rloc16).value, k, low)
                                          && (candidate.routerId == Some(k)
                                              || (candidate.routerId.None? && HasUpper(candidate.rloc16, k)))
  {
    if ParseRloc(child.rloc16).Some? {
      var v := ParseRloc(child.rloc16).value;
      assert IsOfRouter(v, v / 0x400, v % 0x400);
      forall k: nat, low: nat | IsOfRouter(v, k, low)
        ensures k == v / 0x400
      {
      }
      HasUpperIff(candidate.rloc16, v / 0x400);
    }
  }

  /** A locator is its router ID in the upper bits and ten bits of child ID. */
  predicate IsOfRouter(locator: nat, k: nat, low: nat) { locator == 1024 * k + low && low < 1024 }

  predicate HasUpper(text: string, k: nat) {
    ParseRloc(text).Some? && 1024 * k <= ParseRloc(text).value < 1024 * k + 1024
  }

  lemma HasUpperIff(text: string, k: nat)
    ensures HasUpper(text, k) <==> ParseRloc(text).Some? && ParseRloc(text).value / 0x400 == k
  {
  }

  /** How one candidate answers for a child. */
  datatype Match = Match(reported: bool, derived: bool)

  function MatchOf(candidate: Device, child: Device): Match {
    if !IsRouter(candidate) then Match(false, false)
    else Match(IsReported(candidate, ReportedParent(child)), IsDerived(candidate, child))
  }

  predicate FirstReported<T>(items: seq<T>, test: T -> Match, k: nat) {
    k < |items| && test(items[k]).reported && forall j :: 0 <= j < k ==> !test(items[j]).reported
  }

  predicate FirstDerived<T>(items: seq<T>, test: T -> Match, k: nat) {
    k < |items| && test(items[k]).derived && forall j :: 0 <= j < k ==> !test(items[j]).derived
  }

  /** The first reported parent wins; failing any, the first derived one. */
  predicate IsBest<T>(items: seq<T>, test: T -> Match, found: Option<nat>) {
    match found
    case Some(k) => FirstReported(items, test, k)
                    || (FirstDerived(items, test, k) && forall j :: 0 <= j < |items| ==> !test(items[j]).reported)
    case None => forall j :: 0 <= j < |items| ==> !test(items[j]).reported && !test(items[j]).derived
  }

  /** The loop over the candidates, remembering the first derived one until a reported one turns up. */
  method FindBest<T>(items: seq<T>, test: T -> Match) returns (found: Option<nat>)
    ensures IsBest(items, test, found)
  {
    var byRouterId: Option<nat> := None;
    for i := 0 to |items|
      invariant forall j :: 0 <= j < i ==> !test(items[j]).reported
      invariant byRouterId.Some? ==> byRouterId.value < i && FirstDerived(items, test, byRouterId.value)
      invariant byRouterId.None? ==> forall j :: 0 <= j < i ==> !test(items[j]).derived
    {
      var m := test(items[i]);
      if m.reported {
        return Some(i);
      }
      if m.derived && byRouterId.None? {
        byRouterId := Some(i);
      }
    }
    return byRouterId;
  }

  /** The parent of a child among the inventory. */
  method FindParent(child: Device, items: seq<Device>) returns (found: Option<nat>)
    ensures IsBest(items, d => MatchOf(d, child), found)
  {
    found := FindBest(items, d => MatchOf(d, child));
  }

  /**
   A derived locator leads back to the parent: for every router locator and every
   child ID that fits its child bits, the derived text is read back by every reader,
   is not a router's, and names the router's ID to the tools and the dashboard alike.
   */
  lemma DerivedLeadsBack(router: nat, childId: nat)
    requires router < 0x1_0000 && router % 0x400 == 0 && 1 <= childId < 0x400
    ensures var text := DerivedRloc(Some(router), childId);
            && ParseRloc(text) == ParseRloc16(text) == Some(router + childId)
            && RouterIdFromRloc(text) == Some(router / 0x400)
    ensures (router + childId) % 0x400 != 0 && (router + childId) / 0x400 == router / 0x400
  {
    ChildBits(router, childId);
    PrintedReadsBack(router + childId, DerivedRloc(Some(router), childId));
  }

  lemma ChildBits(router: nat, childId: nat)
    requires router < 0x1_0000 && router % 0x400 == 0 && 1 <= childId < 0x400
    ensures router + childId < 0x1_0000 && (router + childId) % 0x1_0000 == router + childId
    ensures (router + childId) % 0x400 == childId && (router + childId) / 0x400 == router / 0x400
  {
  }

  /**
   Hence the parent is found: a child with a derived locator and no reported parent
   gets the router with that ID, when there is one and router IDs are unique.
   */
  lemma ChildFindsItsRouter(router: nat, childId: nat, child: Device, items: seq<Device>, k: nat, found: Option<nat>)
    requires router < 0x1_0000 && router % 0x400 == 0 && 1 <= childId < 0x400
    requires child.rloc16 == DerivedRloc(Some(router), childId) && ReportedParent(child) == ""
    requires k < |items| && IsRouter(items[k]) && RouterId(items[k]) == Some(router / 0x400)
    requires forall j :: 0 <= j < |items| && IsRouter(items[j]) && RouterId(items[j]) == RouterId(items[k]) ==> j == k
    requires IsBest(items, d => MatchOf(d, child), found)
    ensures found == Some(k)
  {
    DerivedLeadsBack(router, childId);
    forall j | 0 <= j < |items|
      ensures MatchOf(items[j], child) == Match(false, j == k)
    {
      OnlyItsRouterMatches(router, child, items[j]);
    }
  }

  lemma OnlyItsRouterMatches(router: nat, child: Device, candidate: Device)
    requires ParseRloc(child.rloc16).Some? && ParseRloc(child.rloc16).value / 0x400 == router / 0x400
             && ReportedParent(child) == ""
    ensures MatchOf(candidate, child) ==
            Match(false, IsRouter(candidate) && RouterId(candidate) == Some(router / 0x400))
  {
  }
}
