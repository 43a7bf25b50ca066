/**
 Hexadecimal text, as `encoding/hex` writes and reads it.

 Writing gives two lower-case digits for each byte, the high half first. Reading takes
 digits of either case and refuses an odd number of them and everything that is not a
 digit. The optional prefix "0x" belongs to the callers, who cut it off before reading.
 Reading what was written gives the bytes back; the other way round the case of the
 digits is lost.
 */
module Hex {
  import opened Wrappers
  import opened LittleEndian

  /** One lower-case digit. */
  function Digit(n: nat): (c: char)
    requires n < 16
    ensures Value(c) == Some(n)
  {
    if n < 10 then ('0' as int + n) as char else ('a' as int + n - 10) as char
  }

  /** Either case is read. */
  function Value(c: char): (v: Option<nat>)
    ensures v.Some? ==> v.value < 16
  {
    if '0' <= c <= '9' then Some(c as int - '0' as int)
    else if 'a' <= c <= 'f' then Some(c as int - 'a' as int + 10)
    else if 'A' <= c <= 'F' then Some(c as int - 'A' as int + 10)
    else None
  }

  predicate IsHex(s: string) { forall i :: 0 <= i < |s| ==> Value(s[i]).Some? }

  /** The number a text of digits stands for. */
  function Number(s: string): (n: nat)
    requires IsHex(s)
  {
    if s == "" then 0 else 16 * Number(s[..|s| - 1]) + Value(s[|s| - 1]).value
  }

  function TrimHexPrefix(s: string): string {
    if |s| >= 2 && s[..2] == "0x" then s[2..] else s
  }

  /** The prefix goes once, in lower case only; everything else stays. */
  lemma PrefixIs(s: string)
    ensures TrimHexPrefix("0x" + s) == s
    ensures (|s| < 2 || s[0] != '0' || s[1] != 'x') ==> TrimHexPrefix(s) == s
  {
    assert ("0x" + s)[..2] == "0x" && ("0x" + s)[2..] == s;
    assert |s| >= 2 ==> s[..2][0] == s[0] && s[..2][1] == s[1];
  }

  function Encode(bytes: seq<byte>): (s: string)
    ensures |s| == 2 * |bytes|
  {
    if bytes == [] then []
    else [Digit(bytes[0] / 16), Digit(bytes[0] % 16)] + Encode(bytes[1..])
  }

  function Decode(s: string): (r: Option<seq<byte>>)
    ensures r.Some? ==> 2 * |r.value| == |s|
  {
    if s == [] then Some([])
    else if |s| == 1 then None
    else
      var high, low, rest := Value(s[0]), Value(s[1]), Decode(s[2..]);
      if high.Some? && low.Some? && rest.Some? then Some([16 * high.value + low.value] + rest.value) else None
  }

  lemma {:induction false} DecodeEncode(bytes: seq<byte>)
    ensures Decode(Encode(bytes)) == Some(bytes)
  {
    if bytes != [] {
      var s := Encode(bytes);
      DecodeEncode(bytes[1..]);
      assert s[2..] == Encode(bytes[1..]);
      assert bytes == [bytes[0]] + bytes[1..];
    }
  }

  predicate IsDigit(c: char) { '0' <= c <= '9' || 'a' <= c <= 'f' }

  /** Only lower-case digits are written. */
  lemma {:induction false} EncodeDigits(bytes: seq<byte>)
    ensures forall i :: 0 <= i < |Encode(bytes)| ==> IsDigit(Encode(bytes)[i])
  {
    if bytes != [] {
      EncodeDigits(bytes[1..]);
    }
  }
}
