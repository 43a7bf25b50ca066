/** The decoder told byte by byte (internal/matter/tlv.go): what each kind and each tag form is on the wire. */
module TlvBytes {
  // Nothing here speaks of the tables of TlvWire. Each lemma gives the bytes one by one and
  // says what TlvParse answers, so that a table with another width in it would be found out.

  import opened Wrappers
  import opened LittleEndian
  import opened TlvWire
  import opened TlvSpec
  import opened Tlv

  /** What TlvParse answers for a whole buffer. */
  function Answer(buf: seq<byte>, depth: nat): Result<(seq<Element>, int), Error> {
    Report(DecodeForest(buf, depth), |buf|)
  }

  /** An element without tag or children. */
  function Number(kind: byte, num: Uint64): Element { Element(0, false, kind, num, [], [], []) }

  // ---------------------------------------------------------------- one element and an end byte

  /** An element that is printed as `head` and `value`, an end byte, and whatever follows. */
  lemma OneElement(w: Wire, printed: seq<byte>, rest: seq<byte>, depth: nat)
    requires ValidWire(w) && !w.Container? && depth <= 16 && printed == Encode(w)
    ensures Answer(printed + [0x18] + rest, depth) == Ok(([Meaning(w)], |printed| + 1))
  {
    var ws := [w];
    assert ws[1..] == [] && ValidForest(ws[1..], true) && EncodeForest(ws[1..], true) == [0x18];
    assert ValidForest(ws, true);
    assert EncodeForest(ws, true) == printed + [0x18];
    assert Nesting(ws[1..]) == 0 && Nesting(ws) == 0;
    ForestRoundTrip(ws, true, rest, depth);
    assert Meanings(ws[1..]) == [] && Meanings(ws) == [Meaning(w)];
  }

  /** The bytes of an element with a tag form of 0 to 7. */
  lemma PrintedHead(tag: Tag, kind: byte, w: Wire)
    requires ValidWire(w) && w.tag == tag && w.kind == kind && kind < 0x20
    ensures Encode(w) == [TagForm(tag) * 0x20 + kind] + TagBytes(tag) + EncodeValue(w)
  {
  }

  lemma OneByte(b0: byte)
    ensures ToBytes(b0, 1) == [b0] && Limit(1) == 0x100
  {
    assert ToBytes(b0 / 0x100, 0) == [];
    EightBytes();
  }

  lemma TwoBytes(b0: byte, b1: byte)
    ensures ToBytes(b0 + 0x100 * b1, 2) == [b0, b1] && b0 + 0x100 * b1 < Limit(2)
  {
    WriteBack([b0, b1]);
    assert [b0, b1][1..] == [b1] && [b1][1..] == [];
    EightBytes();
  }

  function Four(b0: byte, b1: byte, b2: byte, b3: byte): Uint64 {
    b0 + 0x100 * b1 + 0x1_0000 * b2 + 0x100_0000 * b3
  }

  lemma FourBytes(b0: byte, b1: byte, b2: byte, b3: byte)
    ensures ToBytes(Four(b0, b1, b2, b3), 4) == [b0, b1, b2, b3] && Four(b0, b1, b2, b3) < Limit(4)
  {
    var s := [b0, b1, b2, b3];
    WriteBack(s);
    assert s[1..] == [b1, b2, b3] && s[1..][1..] == [b2, b3] && s[1..][1..][1..] == [b3] && [b3][1..] == [];
    assert FromBytes([b2, b3]) == b2 + 0x100 * b3;
    assert FromBytes([b1, b2, b3]) == b1 + 0x100 * (b2 + 0x100 * b3);
    EightBytes();
  }

  lemma {:induction false} JoinBytes(a: seq<byte>, b: seq<byte>)
    ensures FromBytes(a + b) == FromBytes(a) + Limit(|a|) * FromBytes(b)
  {
    if a == [] {
      assert a + b == b;
    } else {
      JoinBytes(a[1..], b);
      assert (a + b)[1..] == a[1..] + b && (a + b)[0] == a[0];
      Distribute(FromBytes(a[1..]), Limit(|a[1..]|), FromBytes(b));
    }
  }

  lemma Distribute(x: int, l: int, y: int)
    ensures 0x100 * (x + l * y) == 0x100 * x + (0x100 * l) * y
  {
  }

  lemma EightBytesRead(low: seq<byte>, high: seq<byte>)
    requires |low| == |high| == 4
    ensures var n := Four(low[0], low[1], low[2], low[3])
                     + 0x1_0000_0000 * Four(high[0], high[1], high[2], high[3]);
            n < Limit(8) == 0x1_0000_0000_0000_0000 && ToBytes(n, 8) == low + high
  {
    assert low == [low[0], low[1], low[2], low[3]] && high == [high[0], high[1], high[2], high[3]];
    FourBytes(low[0], low[1], low[2], low[3]);
    FourBytes(high[0], high[1], high[2], high[3]);
    ReadBack(Four(low[0], low[1], low[2], low[3]), 4);
    ReadBack(Four(high[0], high[1], high[2], high[3]), 4);
    JoinBytes(low, high);
    WriteBack(low + high);
    EightBytes();
  }

  // ---------------------------------------------------------------- numbers

  /** One byte of value: 8-bit integers. */
  lemma OneByteKinds(kind: byte, b0: byte, rest: seq<byte>, depth: nat)
    requires kind in {0x00, 0x04} && depth <= 16
    ensures Answer([kind, b0, 0x18] + rest, depth) == Ok(([Number(kind, b0)], 3))
  {
    var w := Scalar(Anonymous, kind, b0);
    OneByte(b0);
    PrintedHead(Anonymous, kind, w);
    assert Encode(w) == [kind, b0];
    OneElement(w, [kind, b0], rest, depth);
    assert [kind, b0] + [0x18] == [kind, b0, 0x18];
  }

  /** Two bytes: 16-bit integers. */
  lemma TwoByteKinds(kind: byte, b0: byte, b1: byte, rest: seq<byte>, depth: nat)
    requires kind in {0x01, 0x05} && depth <= 16
    ensures Answer([kind, b0, b1, 0x18] + rest, depth) == Ok(([Number(kind, b0 + 0x100 * b1)], 4))
  {
    var w := Scalar(Anonymous, kind, b0 + 0x100 * b1);
    TwoBytes(b0, b1);
    PrintedHead(Anonymous, kind, w);
    assert Encode(w) == [kind, b0, b1];
    OneElement(w, [kind, b0, b1], rest, depth);
    assert [kind, b0, b1] + [0x18] == [kind, b0, b1, 0x18];
  }

  /** Four bytes: 32-bit integers and floats. */
  lemma FourByteKinds(kind: byte, b: seq<byte>, rest: seq<byte>, depth: nat)
    requires kind in {0x02, 0x06, 0x0a} && |b| == 4 && depth <= 16
    ensures Answer([kind] + b + [0x18] + rest, depth) == Ok(([Number(kind, Four(b[0], b[1], b[2], b[3]))], 6))
  {
    var w := Scalar(Anonymous, kind, Four(b[0], b[1], b[2], b[3]));
    FourBytes(b[0], b[1], b[2], b[3]);
    assert b == [b[0], b[1], b[2], b[3]];
    PrintedHead(Anonymous, kind, w);
    assert Encode(w) == [kind] + b;
    OneElement(w, [kind] + b, rest, depth);
  }

  /** Eight bytes: 64-bit integers and doubles. */
  lemma EightByteKinds(kind: byte, low: seq<byte>, high: seq<byte>, rest: seq<byte>, depth: nat)
    requires kind in {0x03, 0x07, 0x0b} && |low| == |high| == 4 && depth <= 16
    ensures var n := Four(low[0], low[1], low[2], low[3])
                     + 0x1_0000_0000 * Four(high[0], high[1], high[2], high[3]);
            Answer([kind] + low + high + [0x18] + rest, depth) == Ok(([Number(kind, n)], 10))
  {
    var n := Four(low[0], low[1], low[2], low[3]) + 0x1_0000_0000 * Four(high[0], high[1], high[2], high[3]);
    var w := Scalar(Anonymous, kind, n);
    EightBytesRead(low, high);
    PrintedHead(Anonymous, kind, w);
    assert Encode(w) == [kind] + low + high;
    OneElement(w, [kind] + low + high, rest, depth);
  }

  /** No bytes: false, true and null. */
  lemma NoByteKinds(kind: byte, rest: seq<byte>, depth: nat)
    requires kind in {0x08, 0x09, 0x14} && depth <= 16
    ensures Answer([kind, 0x18] + rest, depth) == Ok(([Number(kind, if kind == 0x09 then 1 else 0)], 2))
  {
    var w := Scalar(Anonymous, kind, 0);
    PrintedHead(Anonymous, kind, w);
    assert Encode(w) == [kind];
    OneElement(w, [kind], rest, depth);
    assert [kind] + [0x18] == [kind, 0x18];
  }

  // ---------------------------------------------------------------- strings

  /** Text below kind 0x10, bytes from there on. */
  function Str(kind: byte, s: seq<byte>): Element {
    if kind < 0x10 then Element(0, false, kind, 0, [], s, []) else Element(0, false, kind, 0, s, [], [])
  }

  lemma PrintedString(kind: byte, prefix: seq<byte>, payload: seq<byte>, rest: seq<byte>, depth: nat)
    requires 0x0c <= kind <= 0x13 && depth <= 16
    requires |prefix| == LengthWidth(kind) && ToBytes(|payload|, |prefix|) == prefix && |payload| < Limit(|prefix|)
    ensures Answer([kind] + prefix + payload + [0x18] + rest, depth) ==
            Ok(([Str(kind, payload)], 1 + |prefix| + |payload| + 1))
  {
    var w := Blob(Anonymous, kind, payload);
    PrintedHead(Anonymous, kind, w);
    assert Encode(w) == [kind] + prefix + payload;
    OneElement(w, [kind] + prefix + payload, rest, depth);
  }

  /** One byte of length. */
  lemma OneByteLengths(kind: byte, b0: byte, payload: seq<byte>, rest: seq<byte>, depth: nat)
    requires kind in {0x0c, 0x10} && |payload| == b0 && depth <= 16
    ensures Answer([kind, b0] + payload + [0x18] + rest, depth) == Ok(([Str(kind, payload)], 3 + b0))
  {
    OneByte(b0);
    PrintedString(kind, [b0], payload, rest, depth);
    assert [kind] + [b0] == [kind, b0];
  }

  /** Two. */
  lemma TwoByteLengths(kind: byte, b0: byte, b1: byte, payload: seq<byte>, rest: seq<byte>, depth: nat)
    requires kind in {0x0d, 0x11} && |payload| == b0 + 0x100 * b1 && depth <= 16
    ensures Answer([kind, b0, b1] + payload + [0x18] + rest, depth) == Ok(([Str(kind, payload)], 4 + |payload|))
  {
    TwoBytes(b0, b1);
    PrintedString(kind, [b0, b1], payload, rest, depth);
    assert [kind] + [b0, b1] == [kind, b0, b1];
  }

  /** Four. */
  lemma FourByteLengths(kind: byte, b: seq<byte>, payload: seq<byte>, rest: seq<byte>, depth: nat)
    requires kind in {0x0e, 0x12} && |b| == 4 && |payload| == Four(b[0], b[1], b[2], b[3]) && depth <= 16
    ensures Answer([kind] + b + payload + [0x18] + rest, depth) == Ok(([Str(kind, payload)], 6 + |payload|))
  {
    FourBytes(b[0], b[1], b[2], b[3]);
    assert b == [b[0], b[1], b[2], b[3]];
    PrintedString(kind, b, payload, rest, depth);
  }

  /** Eight. */
  lemma EightByteLengths(kind: byte, low: seq<byte>, high: seq<byte>, payload: seq<byte>, rest: seq<byte>, depth: nat)
    requires kind in {0x0f, 0x13} && |low| == |high| == 4 && depth <= 16
    requires |payload| == Four(low[0], low[1], low[2], low[3])
                          + 0x1_0000_0000 * Four(high[0], high[1], high[2], high[3])
    ensures Answer([kind] + (low + high) + payload + [0x18] + rest, depth) ==
            Ok(([Str(kind, payload)], 10 + |payload|))
  {
    EightBytesRead(low, high);
    PrintedString(kind, low + high, payload, rest, depth);
  }

  // ---------------------------------------------------------------- tags

  /** How many bytes of tag follow a control byte, by its upper three bits. */
  predicate IsTag(form: nat, raw: seq<byte>) {
    || (form == 0 && |raw| == 0) || (form == 1 && |raw| == 1)
    || (form in {2, 4} && |raw| == 2) || (form in {3, 5} && |raw| == 4)
    || (form == 6 && |raw| == 6) || (form == 7 && |raw| == 8)
  }

  /** A tag of one byte is kept and any other is passed over; the value behind it is read as it would be without. */
  lemma TagForms(form: nat, raw: seq<byte>, b0: byte, rest: seq<byte>, depth: nat)
    requires IsTag(form, raw) && depth <= 16
    ensures Answer([form * 0x20 + 0x04] + raw + [b0, 0x18] + rest, depth) ==
            Ok(([if form == 1 then Element(raw[0], true, 0x04, b0, [], [], []) else Number(0x04, b0)], |raw| + 3))
  {
    var tag := if form == 0 then Anonymous else if form == 1 then Context(raw[0]) else Profile(form, raw);
    var w := Scalar(tag, 0x04, b0);
    assert form == 1 ==> raw == [raw[0]];
    OneByte(b0);
    PrintedHead(tag, 0x04, w);
    var printed := [form * 0x20 + 0x04] + raw + [b0];
    assert Encode(w) == printed;
    OneElement(w, printed, rest, depth);
    assert printed + [0x18] + rest == [form * 0x20 + 0x04] + raw + [b0, 0x18] + rest;
  }

  // ---------------------------------------------------------------- containers, errors, depth

  /** Structures, arrays and lists hold what stands before their end byte. */
  lemma ContainerKinds(kind: byte, b0: byte, rest: seq<byte>, depth: nat)
    requires kind in {0x15, 0x16, 0x17} && depth < 16
    ensures Answer([kind, 0x04, b0, 0x18, 0x18] + rest, depth) ==
            Ok(([Element(0, false, kind, 0, [], [], [Number(0x04, b0)])], 5))
  {
    var body := [Scalar(Anonymous, 0x04, b0)];
    var ws := [Container(Anonymous, kind, body, true)];
    OneByte(b0);
    PrintedHead(Anonymous, 0x04, body[0]);
    assert Encode(body[0]) == [0x04, b0];
    OnePrinted(body[0], [0x04, b0]);
    PrintedHead(Anonymous, kind, ws[0]);
    assert Encode(ws[0]) == [kind, 0x04, b0, 0x18];
    OnePrinted(ws[0], [kind, 0x04, b0, 0x18]);
    ForestRoundTrip(ws, true, rest, depth);
    assert [kind, 0x04, b0, 0x18] + [0x18] == [kind, 0x04, b0, 0x18, 0x18];
    assert Meaning(body[0]) == Number(0x04, b0);
  }

  lemma OnePrinted(w: Wire, printed: seq<byte>)
    requires ValidWire(w) && !Unclosed(w) && printed == Encode(w)
    ensures ValidForest([w], true) && EncodeForest([w], true) == printed + [0x18]
    ensures Nesting([w]) == Levels(w) && Meanings([w]) == [Meaning(w)]
  {
    var ws := [w];
    assert ws[1..] == [] && ValidForest(ws[1..], true) && EncodeForest(ws[1..], true) == [0x18];
    assert Nesting(ws[1..]) == 0 && Meanings(ws[1..]) == [];
  }

  lemma ElementFails(buf: seq<byte>, depth: nat, error: Error)
    requires buf != [] && buf[0] != 0x18 && depth <= 16 && DecodeElement(buf, depth) == Err(error)
    ensures Answer(buf, depth) == Err(error)
  {
    assert DecodeItems(buf, depth) == Err(error);
    assert DecodeForest(buf, depth) == Err(error);
  }

  lemma Control(form: nat, kind: byte, s: seq<byte>)
    requires form < 8 && kind < 0x20
    ensures var buf := [form * 0x20 + kind] + s;
            && buf[0] / 0x20 == form && buf[0] % 0x20 == kind && buf[1..] == s
            && (buf[0] == 0x18 <==> form == 0 && kind == 0x18)
  {
  }

  /** The other kinds are refused, a tagged end byte among them. */
  lemma OtherKinds(form: nat, kind: byte, raw: seq<byte>, rest: seq<byte>, depth: nat)
    requires 0x18 <= kind < 0x20 && IsTag(form, raw) && !(form == 0 && kind == 0x18) && depth <= 16
    ensures Answer([form * 0x20 + kind] + raw + rest, depth) == Err(Unsupported(kind))
  {
    var buf := [form * 0x20 + kind] + (raw + rest);
    assert [form * 0x20 + kind] + raw + rest == buf;
    Control(form, kind, raw + rest);
    assert (raw + rest)[..|raw|] == raw && (raw + rest)[|raw|..] == rest;
    assert TagWidth(form) == |raw| && DecodeTag(form, raw + rest).Ok?;
    ElementFails(buf, depth, Unsupported(kind));
  }

  /** Values and tags that the buffer is too short for are refused as truncated. */
  predicate IsCutShort(form: nat, kind: byte, s: seq<byte>) {
    || (form == 1 && |s| < 1) || (form in {2, 4} && |s| < 2) || (form in {3, 5} && |s| < 4)
    || (form == 6 && |s| < 6) || (form == 7 && |s| < 8)
    || (form == 0 &&
        (|| (kind in {0x00, 0x04, 0x0c, 0x10} && |s| < 1)
         || (kind in {0x01, 0x05, 0x0d, 0x11} && |s| < 2)
         || (kind in {0x02, 0x06, 0x0a, 0x0e, 0x12} && |s| < 4)
         || (kind in {0x03, 0x07, 0x0b, 0x0f, 0x13} && |s| < 8)))
  }

  lemma CutShort(form: nat, kind: byte, s: seq<byte>, depth: nat)
    requires form < 8 && kind < 0x20 && IsCutShort(form, kind, s) && depth <= 16
    ensures Answer([form * 0x20 + kind] + s, depth) == Err(Truncated)
  {
    Control(form, kind, s);
    assert s[..0] == [] && s[0..] == s;
    ElementFails([form * 0x20 + kind] + s, depth, Truncated);
  }

  /** A text or byte string shorter than its one byte of length says. */
  lemma StringCutShort(kind: byte, b0: byte, s: seq<byte>, depth: nat)
    requires kind in {0x0c, 0x10} && |s| < b0 && depth <= 16
    ensures Answer([kind, b0] + s, depth) == Err(Truncated)
  {
    var after := [b0] + s;
    Control(0, kind, after);
    assert [0 * 0x20 + kind] + after == [kind, b0] + s;
    assert after[..0] == [] && after[0..] == after && after[..1] == [b0] && after[1..] == s;
    assert [b0][1..] == [] && FromBytes([b0]) == b0;
    assert DecodeBlob(Anonymous, kind, after) == Err(Truncated);
    ElementFails([kind, b0] + s, depth, Truncated);
  }

  // A buffer of opening structures nested `n` deep, closed again.

  function Nest(n: nat): Wire { Container(Anonymous, 0x15, if n == 0 then [] else [Nest(n - 1)], true) }

  function Repeat(b: byte, n: nat): seq<byte> { seq(n, _ => b) }

  lemma {:induction false} NestPrinted(n: nat)
    ensures ValidWire(Nest(n)) && Levels(Nest(n)) == n + 1
    ensures Encode(Nest(n)) == Repeat(0x15, n + 1) + Repeat(0x18, n + 1)
  {
    if n == 0 {
      assert Nesting([]) == 0 && ValidForest([], true) && EncodeForest([], true) == [0x18];
      PrintedHead(Anonymous, 0x15, Nest(n));
    } else {
      NestPrinted(n - 1);
      OnePrinted(Nest(n - 1), Encode(Nest(n - 1)));
      PrintedHead(Anonymous, 0x15, Nest(n));
      assert Encode(Nest(n)) == [0x15] + (Encode(Nest(n - 1)) + [0x18]);
      assert [0x15] + Repeat(0x15, n) == Repeat(0x15, n + 1) && Repeat(0x18, n) + [0x18] == Repeat(0x18, n + 1);
    }
  }

  /** Sixteen containers may be open at once, and no more. */
  lemma DepthLimit(n: nat)
    ensures Answer(Repeat(0x15, n + 1) + Repeat(0x18, n + 1) + [0x18], 0).Ok? <==> n + 1 <= 16
    ensures n + 1 > 16 ==> Answer(Repeat(0x15, n + 1) + Repeat(0x18, n + 1) + [0x18], 0) == Err(TooDeep)
  {
    NestPrinted(n);
    OnePrinted(Nest(n), Encode(Nest(n)));
    ForestRoundTrip([Nest(n)], true, [], 0);
    assert EncodeForest([Nest(n)], true) + [] == Repeat(0x15, n + 1) + Repeat(0x18, n + 1) + [0x18];
  }
}
