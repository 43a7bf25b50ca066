/**
 The hexadecimal identities of Matter (internal/matter/fabrics.go,
 internal/matter/diagnostics.go, internal/otctl/srp.go).

 A node has an instance name, as mDNS advertises it, and a short form, as controllers
 show it. Both are text, and both are numbers of 64 bits: the lemmas say that printing,
 padding and reading agree, and that comparing the text is comparing the numbers.
 */
module Identities {
  import opened Wrappers
  import opened Text
  import opened TextFacts
  import Hex

  /** A hexadecimal digit that is not a lower-case letter. */
  predicate IsUpperDigit(c: char) { '0' <= c <= '9' || 'A' <= c <= 'F' }

  predicate IsUpperHex(s: string) { forall i :: 0 <= i < |s| ==> IsUpperDigit(s[i]) }

  function TrimZeros(s: string): string {
    if s != "" && s[0] == '0' then TrimZeros(s[1..]) else s
  }

  function Short(node: string): string {
    var digits := TrimZeros(ToUpper(node));
    "0x" + if digits == "" then "0" else digits
  }

  /** Fabric and node of an instance name made of two 16-digit fields; the node in short form. */
  function MatterIdentity(instance: string): Option<(string, string)> {
    match Cut(instance, '-')
    case None => None
    case Some((fabric, node)) =>
      if |fabric| == |node| == 16 && Hex.IsHex(fabric) && Hex.IsHex(node) then Some((ToUpper(fabric), Short(node)))
      else None
  }

  /** The same for a browsed name, which may have space around it. */
  function Identity(instance: string): Option<(string, string)> { MatterIdentity(TrimSpace(instance)) }

  /** `strconv.FormatUint(value, 16)` in capitals. */
  function UpperText(value: nat): string {
    if value < 16 then [UpperChar(Hex.Digit(value))] else UpperText(value / 16) + [UpperChar(Hex.Digit(value % 16))]
  }

  function FormatId(value: nat): string { "0x" + UpperText(value) }

  /** Pads a short form to 16 digits; a longer one makes the code panic. */
  function NodeOrder(node: string): string
    requires |Hex.TrimHexPrefix(node)| <= 16
  {
    var digits := Hex.TrimHexPrefix(node);
    seq(16 - |digits|, _ => '0') + digits
  }

  // ---------------------------------------------------------------- proofs

  lemma UpperKeepsValue(s: string)
    requires Hex.IsHex(s)
    ensures IsUpperHex(ToUpper(s)) && Hex.IsHex(ToUpper(s))
    ensures forall i :: 0 <= i < |s| ==> Hex.Value(ToUpper(s)[i]) == Hex.Value(s[i])
  {
  }

  lemma {:induction false} SameNumber(s: string, t: string)
    requires Hex.IsHex(s) && Hex.IsHex(t) && |s| == |t|
    requires forall i :: 0 <= i < |s| ==> Hex.Value(s[i]) == Hex.Value(t[i])
    ensures Hex.Number(s) == Hex.Number(t)
  {
    if s != "" {
      SameNumber(s[..|s| - 1], t[..|t| - 1]);
    }
  }

  lemma {:induction false} TrimZerosSnoc(s: string, c: char)
    ensures TrimZeros(s + [c]) == if TrimZeros(s) != "" then TrimZeros(s) + [c] else if c == '0' then "" else [c]
  {
    if s != "" && s[0] == '0' {
      TrimZerosSnoc(s[1..], c);
      assert (s + [c])[1..] == s[1..] + [c];
    } else if s == "" {
      assert s + [c] == [c] && [c][1..] == "";
    }
  }

  lemma UpperDigitOf(c: char)
    requires IsUpperDigit(c)
    ensures Hex.Value(c).Some? && UpperChar(Hex.Digit(Hex.Value(c).value)) == c
    ensures c == '0' <==> Hex.Value(c) == Some(0)
  {
  }

  lemma UpperTextGrows(n: nat, v: nat)
    requires 0 < n && v < 16
    ensures UpperText(16 * n + v) == UpperText(n) + [UpperChar(Hex.Digit(v))]
  {
    assert (16 * n + v) / 16 == n && (16 * n + v) % 16 == v;
  }

  /** What is left of a text without its leading zeros is its number printed. */
  lemma {:induction false} TrimmedIsPrinted(s: string)
    requires IsUpperHex(s) && Hex.IsHex(s)
    ensures TrimZeros(s) == if Hex.Number(s) == 0 then "" else UpperText(Hex.Number(s))
  {
    if s != "" {
      var front, c := s[..|s| - 1], s[|s| - 1];
      assert s == front + [c];
      TrimmedIsPrinted(front);
      TrimZerosSnoc(front, c);
      UpperDigitOf(c);
      if Hex.Number(front) > 0 {
        UpperTextGrows(Hex.Number(front), Hex.Value(c).value);
      }
    }
  }

  lemma {:induction false} TrimZerosPads(s: string)
    ensures |TrimZeros(s)| <= |s| && s == seq(|s| - |TrimZeros(s)|, _ => '0') + TrimZeros(s)
  {
    if s != "" && s[0] == '0' {
      TrimZerosPads(s[1..]);
      var k := |s[1..]| - |TrimZeros(s)|;
      assert seq(k + 1, _ => '0') == ['0'] + seq(k, _ => '0');
      assert s == ['0'] + s[1..];
    }
  }

  /**
   The identities agree: the short form of a 16-digit node is its number as the
   diagnostics print it, and padding it again gives the 16 digits back in capitals.
   */
  lemma ShortIsFormatId(node: string)
    requires |node| == 16 && Hex.IsHex(node)
    ensures Short(node) == FormatId(Hex.Number(node))
    ensures |Hex.TrimHexPrefix(Short(node))| <= 16 && NodeOrder(Short(node)) == ToUpper(node)
  {
    var upper := ToUpper(node);
    UpperKeepsValue(node);
    SameNumber(node, upper);
    TrimmedIsPrinted(upper);
    TrimZerosPads(upper);
    var digits := TrimZeros(upper);
    var shown := if digits == "" then "0" else digits;
    assert Short(node)[..2] == "0x" && Short(node)[2..] == shown;
    if digits == "" {
      assert seq(16, _ => '0') == seq(15, _ => '0') + "0";
      assert upper == seq(16, _ => '0');
    }
  }

  /** A name built from two 16-digit fields is read back, by the browse and by the registry alike. */
  lemma IdentityReadsBack(fabric: string, node: string)
    requires |fabric| == 16 && |node| == 16 && Hex.IsHex(fabric) && Hex.IsHex(node)
    ensures MatterIdentity(fabric + "-" + node) == Some((ToUpper(fabric), FormatId(Hex.Number(node))))
    ensures Identity(fabric + "-" + node) == MatterIdentity(fabric + "-" + node)
  {
    CutAtDash(fabric, node);
    ShortIsFormatId(node);
    NothingToTrim(fabric, node);
  }

  /** Nothing else is read: two fields of 16 digits and a dash between them. */
  lemma IdentityIff(instance: string)
    ensures MatterIdentity(instance).Some? <==>
            exists fabric: string, node: string :: IsInstanceName(instance, fabric, node)
  {
    CutSound(instance, '-');
    if MatterIdentity(instance).Some? {
      var (fabric, node) := Cut(instance, '-').value;
      assert IsInstanceName(instance, fabric, node);
    }
    if fabric: string, node: string :| IsInstanceName(instance, fabric, node) {
      IdentityReadsBack(fabric, node);
    }
  }

  predicate IsInstanceName(instance: string, fabric: string, node: string) {
    |fabric| == 16 && |node| == 16 && Hex.IsHex(fabric) && Hex.IsHex(node) && instance == fabric + "-" + node
  }

  /** A browsed name may have white space around it. */
  lemma IdentityTrims(a: string, instance: string, b: string)
    requires AllWhite(a) && NoOuterWhite(instance) && AllWhite(b)
    ensures Identity(a + instance + b) == MatterIdentity(instance)
  {
    TrimIs(a, instance, b);
  }

  lemma NothingToTrim(fabric: string, node: string)
    requires fabric != "" && node != "" && Hex.IsHex(fabric) && Hex.IsHex(node)
    ensures TrimSpace(fabric + "-" + node) == fabric + "-" + node
  {
    var s := fabric + "-" + node;
    DigitIsNotSpace(fabric[0]);
    DigitIsNotSpace(node[|node| - 1]);
    assert s[0] == fabric[0] && s[|s| - 1] == node[|node| - 1];
    assert TrimLeft(s) == s;
    assert TrimRight(s) == s;
  }

  lemma DigitIsNotSpace(c: char)
    requires Hex.Value(c).Some?
    ensures !IsSpace(c)
  {
  }

  lemma {:induction false} CutAtDash(a: string, b: string)
    requires Hex.IsHex(a)
    ensures Cut(a + "-" + b, '-') == Some((a, b))
  {
    var s := a + "-" + b;
    if a == "" {
      assert s[1..] == b;
    } else {
      assert Hex.Value(a[0]).Some?;
      CutAtDash(a[1..], b);
      assert s[1..] == a[1..] + "-" + b;
      assert a == [a[0]] + a[1..];
    }
  }

  lemma {:induction false} LessSnoc(a: string, b: string, c: char, d: char)
    requires |a| == |b|
    ensures Less(a + [c], b + [d]) <==> Less(a, b) || (a == b && c < d)
  {
    if a != "" {
      LessSnoc(a[1..], b[1..], c, d);
      assert (a + [c])[1..] == a[1..] + [c] && (b + [d])[1..] == b[1..] + [d];
      assert a == [a[0]] + a[1..] && b == [b[0]] + b[1..];
    } else {
      assert a + [c] == [c] && b + [d] == [d];
    }
  }

  lemma DigitOrder(c: char, d: char)
    requires IsUpperDigit(c) && IsUpperDigit(d)
    ensures c < d <==> Hex.Value(c).value < Hex.Value(d).value
    ensures c == d <==> Hex.Value(c).value == Hex.Value(d).value
  {
  }

  /** For texts of the same length in capitals, comparing the text is comparing the number. */
  lemma {:induction false} LessIsNumeric(a: string, b: string)
    requires |a| == |b| && IsUpperHex(a) && IsUpperHex(b) && Hex.IsHex(a) && Hex.IsHex(b)
    ensures Less(a, b) <==> Hex.Number(a) < Hex.Number(b)
    ensures a == b <==> Hex.Number(a) == Hex.Number(b)
  {
    if a != "" {
      var n := |a| - 1;
      LessIsNumeric(a[..n], b[..n]);
      assert a == a[..n] + [a[n]] && b == b[..n] + [b[n]];
      LessSnoc(a[..n], b[..n], a[n], b[n]);
      DigitOrder(a[n], b[n]);
    }
  }

  /** Hence node order sorts the short forms by number. */
  lemma NodeOrderIsNumeric(a: string, b: string)
    requires |a| == |b| == 16 && Hex.IsHex(a) && Hex.IsHex(b)
    ensures |Hex.TrimHexPrefix(Short(a))| <= 16 && |Hex.TrimHexPrefix(Short(b))| <= 16
    ensures Less(NodeOrder(Short(a)), NodeOrder(Short(b))) <==> Hex.Number(a) < Hex.Number(b)
    ensures Short(a) == Short(b) <==> Hex.Number(a) == Hex.Number(b)
  {
    ShortIsFormatId(a);
    ShortIsFormatId(b);
    UpperKeepsValue(a);
    UpperKeepsValue(b);
    SameNumber(a, ToUpper(a));
    SameNumber(b, ToUpper(b));
    LessIsNumeric(ToUpper(a), ToUpper(b));
  }
}
