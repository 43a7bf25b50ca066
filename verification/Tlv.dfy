/**
 The decoder itself (internal/matter/tlv.go): loops over an index into the buffer,
 filling one element cell at a time. Each method is proved against TlvSpec.
 */
module Tlv {
  import opened Wrappers
  import opened LittleEndian
  import opened TlvWire
  import opened TlvSpec

  /** The element being filled; `TlvValue` writes to it through a reference. */
  class ElementCell {
    var tag: byte
    var tagged: bool
    var kind: byte
    var num: Uint64
    var bytes: seq<byte>
    var text: seq<byte>
    var children: seq<Element>

    constructor (kind: byte)
      ensures this.kind == kind && tag == 0 && !tagged && Blank()
    {
      this.kind := kind;
      tag, tagged, num, bytes, text, children := 0, false, 0, [], [], [];
    }

    predicate Blank()
      reads this
    {
      num == 0 && bytes == [] && text == [] && children == []
    }

    function Value(): Element
      reads this
    {
      Element(tag, tagged, kind, num, bytes, text, children)
    }
  }

  /** What the decoder reports of a forest read from the bytes after `at`: its elements, and where reading goes on. */
  function Report(r: Result<Read<Forest>, Error>, length: nat): Result<(seq<Element>, int), Error> {
    match r
    case Err(e) => Err(e)
    case Ok(Read(Forest(ws, _), rest)) => Ok((Meanings(ws), length - |rest|))
  }

  /** Elements already read stand in front of the ones still to come. */
  function Prepend(out: seq<Element>, r: Result<(seq<Element>, int), Error>): Result<(seq<Element>, int), Error> {
    match r
    case Err(e) => Err(e)
    case Ok((es, end)) => Ok((out + es, end))
  }

  /** The width check in front of every fixed-size read: the offset past `n` bytes, if the buffer has them. */
  function Width(buf: seq<byte>, at: nat, n: nat): (r: Result<nat, Error>)
    requires at <= |buf|
  {
    if at + n > |buf| then Err(Truncated) else Ok(at + n)
  }

  /**
   The elements from `at0` on, exactly as the decoder function has them, and where
   reading goes on, which is never outside the buffer.
   */
  method TlvParse(buf: seq<byte>, at0: nat, depth: nat) returns (r: Result<(seq<Element>, int), Error>)
    requires at0 <= |buf|
    ensures r == Report(DecodeForest(buf[at0..], depth), |buf|)
    ensures r.Ok? ==> at0 <= r.value.1 <= |buf|
    decreases TLV_MAX_DEPTH + 1 - depth, 1
  {
    if depth > TLV_MAX_DEPTH {
      return Err(TooDeep);
    }
    var at, out := at0, [];
    PrependNone(Report(DecodeItems(buf[at..], depth), |buf|));
    while at < |buf|
      invariant at0 <= at <= |buf|
      invariant Report(DecodeForest(buf[at0..], depth), |buf|) ==
                Prepend(out, Report(DecodeItems(buf[at..], depth), |buf|))
      decreases |buf| - at
    {
      ghost var s := buf[at..];
      var control := buf[at];
      if control == TLV_END {
        assert out + [] == out;
        return Ok((out, at + 1));
      }
      at := at + 1;
      assert buf[at..] == s[1..];
      var element := new ElementCell(control % 0x20);
      var form: nat := control / 0x20;
      ghost var t := DecodeTag(form, s[1..]);
      var value := ReadTag(buf, at, form, element);
      if value.Err? {
        return Err(value.error);
      }
      var end := TlvValue(buf, value.value, depth, element, t.value.value);
      if end.Err? {
        return Err(end.error);
      }
      ghost var w := DecodeElement(s, depth).value;
      assert DecodeElement(s, depth).Ok? && w.rest == buf[end.value..];
      ItemsStep(buf, s, depth);
      at := end.value;
      PrependOne(out, Meaning(w.value), Report(DecodeItems(w.rest, depth), |buf|));
      out := out + [element.Value()];
    }
    assert out + [] == out;
    return Ok((out, at));
  }

  /** The tag after the control byte: one byte is kept, the wide forms are skipped over. */
  method ReadTag(buf: seq<byte>, at0: nat, form: nat, element: ElementCell) returns (r: Result<nat, Error>)
    requires at0 <= |buf| && form < 8 && element.Blank() && !element.tagged && element.tag == 0
    modifies element
    ensures element.Blank() && element.kind == old(element.kind)
    ensures match DecodeTag(form, buf[at0..])
            case Err(e) => r == Err(e)
            case Ok(Read(tag, rest)) =>
              && r.Ok? && at0 <= r.value <= |buf| && rest == buf[r.value..]
              && element.tagged == tag.Context? && element.tag == (if tag.Context? then tag.tag else 0)
  {
    var at := at0;
    match form {
      case 0 =>
      case 1 =>
        if at >= |buf| {
          return Err(Truncated);
        }
        element.tag, element.tagged := buf[at], true;
        at := at + 1;
      case 2 | 4 => at := at + 2;
      case 3 | 5 => at := at + 4;
      case 6 => at := at + 6;
      case _ => at := at + 8;
    }
    if at > |buf| {
      return Err(Truncated);
    }
    TakeAt(buf, at0, TagWidth(form));
    return Ok(at);
  }

  lemma PrependNone(r: Result<(seq<Element>, int), Error>)
    ensures Prepend([], r) == r
  {
    if r.Ok? {
      assert [] + r.value.0 == r.value.0;
    }
  }

  lemma ItemsStep(buf: seq<byte>, s: seq<byte>, depth: nat)
    requires depth <= TLV_MAX_DEPTH && s != [] && s[0] != TLV_END && DecodeElement(s, depth).Ok?
    ensures var e := DecodeElement(s, depth).value;
            Report(DecodeItems(s, depth), |buf|) ==
            Prepend([Meaning(e.value)], Report(DecodeItems(e.rest, depth), |buf|))
  {
    var e := DecodeElement(s, depth).value;
    var f := DecodeItems(e.rest, depth);
    if f.Ok? {
      assert ([e.value] + f.value.value.elements)[1..] == f.value.value.elements;
    }
  }

  lemma PrependOne(out: seq<Element>, e: Element, r: Result<(seq<Element>, int), Error>)
    ensures Prepend(out, Prepend([e], r)) == Prepend(out + [e], r)
  {
    if r.Ok? {
      assert out + ([e] + r.value.0) == out + [e] + r.value.0;
    }
  }

  /** The method's answer `r` and filled element `e` agree with the decoder function's answer `d`. */
  predicate ValueRead(d: Result<Read<Wire>, Error>, buf: seq<byte>, at: nat, r: Result<nat, Error>, e: Element) {
    match d
    case Err(error) => r == Err(error)
    case Ok(Read(w, rest)) =>
      && r.Ok? && at <= r.value <= |buf|
      && rest == buf[r.value..]
      && e == Meaning(w)
  }

  /** Reads the value of one element into its cell. `tag` is the tag already read, wide forms included. */
  method TlvValue(buf: seq<byte>, at: nat, depth: nat, element: ElementCell, ghost tag: Tag)
    returns (r: Result<nat, Error>)
    requires at <= |buf| && depth <= TLV_MAX_DEPTH && element.kind < 0x20 && element.Blank()
    requires element.tagged == tag.Context? && element.tag == if tag.Context? then tag.tag else 0
    modifies element
    ensures ValueRead(DecodeValue(tag, old(element.kind), buf[at..], depth), buf, at, r, element.Value())
    decreases TLV_MAX_DEPTH + 1 - depth, 0
  {
    var kind := element.kind;
    if kind == 0x00 || kind == 0x04 {
      r := TlvNumber(buf, at, 1, element, tag, depth);
    } else if kind == 0x01 || kind == 0x05 {
      r := TlvNumber(buf, at, 2, element, tag, depth);
    } else if kind == 0x02 || kind == 0x06 || kind == 0x0a {
      r := TlvNumber(buf, at, 4, element, tag, depth);
    } else if kind == 0x03 || kind == 0x07 || kind == TLV_DOUBLE {
      r := TlvNumber(buf, at, 8, element, tag, depth);
    } else if kind == TLV_FALSE || kind == TLV_TRUE {
      ScalarAt(tag, kind, buf, at, depth);
      element.num := kind - TLV_FALSE;
      r := Ok(at);
    } else if kind == TLV_NULL {
      ScalarAt(tag, kind, buf, at, depth);
      r := Ok(at);
    } else if IsBlob(kind) {
      r := TlvBlob(buf, at, element, tag);
    } else if IsContainer(kind) {
      var nested := TlvParse(buf, at, depth + 1);
      if nested.Err? {
        return Err(nested.error);
      }
      ForestAt(buf, at, depth + 1);
      element.children := nested.value.0;
      r := Ok(nested.value.1);
    } else {
      r := Err(Unsupported(kind));
    }
  }

  /** A little-endian number of a fixed width. */
  method TlvNumber(buf: seq<byte>, at: nat, n: nat, element: ElementCell, ghost tag: Tag, ghost depth: nat)
    returns (r: Result<nat, Error>)
    requires at <= |buf| && depth <= TLV_MAX_DEPTH && element.Blank()
    requires IsScalar(element.kind) && n == ScalarWidth(element.kind) > 0
    requires element.tagged == tag.Context? && element.tag == if tag.Context? then tag.tag else 0
    modifies element
    ensures ValueRead(DecodeValue(tag, old(element.kind), buf[at..], depth), buf, at, r, element.Value())
  {
    ScalarAt(tag, element.kind, buf, at, depth);
    var end := Width(buf, at, n);
    if end.Err? {
      return end;
    }
    element.num := FromBytes(buf[at..end.value]);
    return end;
  }

  lemma TakeAt(buf: seq<byte>, at: nat, n: nat)
    requires at + n <= |buf|
    ensures Take(buf[at..], n) == Ok(Read(buf[at..at + n], buf[at + n..]))
  {
    assert buf[at..][..n] == buf[at..at + n];
    assert buf[at..][n..] == buf[at + n..];
  }

  /** The element a scalar of this kind is reported as, given the number in its bytes. */
  function ScalarElement(tag: Tag, kind: byte, raw: Uint64): Element {
    Element(if tag.Context? then tag.tag else 0, tag.Context?, kind,
            if kind == TLV_FALSE then 0 else if kind == TLV_TRUE then 1 else raw, [], [], [])
  }

  /** A scalar, read at an index. */
  lemma ScalarAt(tag: Tag, kind: byte, buf: seq<byte>, at: nat, depth: nat)
    requires at <= |buf| && depth <= TLV_MAX_DEPTH && IsScalar(kind)
    ensures var end := at + ScalarWidth(kind);
            var d := DecodeValue(tag, kind, buf[at..], depth);
            if end > |buf| then d == Err(Truncated)
            else
              && FromBytes(buf[at..end]) < 0x1_0000_0000_0000_0000
              && ValueRead(d, buf, at, Ok(end), ScalarElement(tag, kind, FromBytes(buf[at..end])))
  {
    EightBytes();
    var end := at + ScalarWidth(kind);
    if end <= |buf| {
      TakeAt(buf, at, ScalarWidth(kind));
    }
  }

  /** A nested container's children leave a suffix of the buffer unread. */
  lemma ForestAt(buf: seq<byte>, at: nat, depth: nat)
    requires at <= |buf|
    ensures var f := DecodeForest(buf[at..], depth);
            f.Ok? ==> f.value.rest == buf[|buf| - |f.value.rest|..] && at <= |buf| - |f.value.rest|
  {
    ForestReencodes(buf[at..], depth);
    var f := DecodeForest(buf[at..], depth);
    if f.Ok? {
      var k := |buf| - |f.value.rest|;
      assert f.value.rest == buf[at..][k - at..] == buf[k..];
    }
  }

  /** The string whose length stands at `at0`, or the error when the buffer holds less than announced. */
  method TlvBlob(buf: seq<byte>, at0: nat, element: ElementCell, ghost tag: Tag) returns (r: Result<nat, Error>)
    requires at0 <= |buf| && IsBlob(element.kind) && element.Blank()
    requires element.tagged == tag.Context? && element.tag == if tag.Context? then tag.tag else 0
    modifies element
    ensures ValueRead(DecodeBlob(tag, old(element.kind), buf[at0..]), buf, at0, r, element.Value())
  {
    BlobAt(tag, element.kind, buf, at0);
    var prefix := TlvPrefix(buf, at0, element.kind);
    if prefix.Err? {
      return Err(prefix.error);
    }
    var (length, at) := prefix.value;
    if length > |buf| - at {
      return Err(Truncated);
    }
    Keep(buf[at..at + length], element, tag);
    return Ok(at + length);
  }

  /** The length in front of a string, and the offset behind it. */
  method TlvPrefix(buf: seq<byte>, at: nat, kind: byte) returns (r: Result<(nat, nat), Error>)
    requires at <= |buf|
    ensures var end := at + LengthWidth(kind);
            r == if end > |buf| then Err(Truncated) else Ok((FromBytes(buf[at..end]), end))
  {
    var lengthWidth := ShiftedOne(kind % 4);
    WidthIsShift(kind);
    if at + lengthWidth > |buf| {
      return Err(Truncated);
    }
    var length := TlvLength(buf, at, lengthWidth);
    return Ok((length, at + lengthWidth));
  }

  /** Text goes to one field and bytes to another. */
  method Keep(payload: seq<byte>, element: ElementCell, ghost tag: Tag)
    requires IsBlob(element.kind) && element.Blank()
    requires element.tagged == tag.Context? && element.tag == if tag.Context? then tag.tag else 0
    modifies element
    ensures element.Value() == Meaning(Blob(tag, old(element.kind), payload))
  {
    if element.kind >= TLV_BYTES1 {
      element.bytes := payload;
    } else {
      element.text := payload;
    }
  }

  /** `1 << n`. */
  function ShiftedOne(n: nat): nat { if n == 0 then 1 else 2 * ShiftedOne(n - 1) }

  lemma WidthIsShift(kind: byte)
    ensures ShiftedOne(kind % 4) == LengthWidth(kind) <= 8
  {
    assert ShiftedOne(0) == 1 && ShiftedOne(1) == 2 && ShiftedOne(2) == 4 && ShiftedOne(3) == 8;
  }

  /** A string or byte string, read at an index. */
  lemma BlobAt(tag: Tag, kind: byte, buf: seq<byte>, at0: nat)
    requires at0 <= |buf| && IsBlob(kind)
    ensures var at := at0 + LengthWidth(kind);
            var d := DecodeBlob(tag, kind, buf[at0..]);
            if at > |buf| then d == Err(Truncated)
            else
              var end := at + FromBytes(buf[at0..at]);
              if end > |buf| then d == Err(Truncated) else d == Ok(Read(Blob(tag, kind, buf[at..end]), buf[end..]))
  {
    var at := at0 + LengthWidth(kind);
    if at <= |buf| {
      TakeAt(buf, at0, LengthWidth(kind));
      var length := FromBytes(buf[at0..at]);
      if at + length <= |buf| {
        TakeAt(buf, at, length);
      }
    }
  }

  /** The length field, most significant byte first through the loop; eight bytes never overflow 64 bits. */
  method TlvLength(buf: seq<byte>, at: nat, lengthWidth: nat) returns (length: Uint64)
    requires at + lengthWidth <= |buf| && lengthWidth <= 8
    ensures length == FromBytes(buf[at..at + lengthWidth])
  {
    ghost var raw := buf[at..at + lengthWidth];
    length := 0;
    var i := lengthWidth - 1;
    while i >= 0
      invariant -1 <= i < lengthWidth
      invariant length == FromBytes(raw[i + 1..])
    {
      assert raw[i..][1..] == raw[i + 1..];
      BoundedLength(raw[i..]);
      length := length * 0x100 + buf[at + i];
      i := i - 1;
    }
    assert raw[0..] == raw;
  }

  lemma BoundedLength(s: seq<byte>)
    requires |s| <= 8
    ensures FromBytes(s) < 0x1_0000_0000_0000_0000
  {
    EightBytes();
    LimitGrows(|s|, 8);
  }

  lemma LimitGrows(a: nat, b: nat)
    requires a <= b
    ensures Limit(a) <= Limit(b)
    decreases b - a
  {
    if a < b {
      LimitGrows(a + 1, b);
    }
  }

  /** The first element with this tag; untagged ones never match. */
  function FirstField(es: seq<Element>, tag: byte): Option<Element> {
    if es == [] then None
    else if es[0].tagged && es[0].tag == tag then Some(es[0])
    else FirstField(es[1..], tag)
  }

  method TlvField(elements: seq<Element>, tag: byte) returns (r: Option<Element>)
    ensures r == FirstField(elements, tag)
    ensures r.None? <==> forall e :: e in elements ==> !(e.tagged && e.tag == tag)
    ensures r.Some? ==> exists k :: 0 <= k < |elements| && elements[k] == r.value && r.value.tagged
                          && r.value.tag == tag
                                    && forall j :: 0 <= j < k ==> !(elements[j].tagged && elements[j].tag == tag)
  {
    assert elements[0..] == elements;
    for i := 0 to |elements|
      invariant FirstField(elements, tag) == FirstField(elements[i..], tag)
      invariant forall j :: 0 <= j < i ==> !(elements[j].tagged && elements[j].tag == tag)
    {
      assert elements[i..][1..] == elements[i + 1..];
      if elements[i].tagged && elements[i].tag == tag {
        return Some(elements[i]);
      }
    }
    return None;
  }

  /** What the single outer container holds; anything else at the top level is refused. */
  function Document(buf: seq<byte>): Result<seq<Element>, Error> {
    match DecodeForest(buf, 0)
    case Err(e) => Err(e)
    case Ok(Read(Forest(ws, _), _)) =>
      if |ws| == 1 && Meaning(ws[0]).children != [] then Ok(Meaning(ws[0]).children) else Err(NotOneContainer)
  }

  method TlvDocument(buf: seq<byte>) returns (r: Result<seq<Element>, Error>)
    ensures r == Document(buf)
  {
    assert buf[0..] == buf;
    var parsed := TlvParse(buf, 0, 0);
    if parsed.Err? {
      return Err(parsed.error);
    }
    var elements := parsed.value.0;
    if |elements| != 1 || elements[0].children == [] {
      return Err(NotOneContainer);
    }
    return Ok(elements[0].children);
  }

  /**
   A document is accepted if and only if the buffer starts with one printed
   container holding at least one element, within the depth limit, and then ends or
   goes on with an end byte. The outer tag is not looked at, and anything after
   that end byte is ignored.
   */
  lemma DocumentAccepts(buf: seq<byte>, children: seq<Element>)
    ensures Document(buf) == Ok(children) <==>
            exists w: Wire, closed: bool, rest: seq<byte> :: PrintedDocument(buf, w, closed, rest)
              && children == Meanings(w.body)
  {
    ForestReencodes(buf, 0);
    if Document(buf) == Ok(children) {
      var Read(Forest(ws, closed), rest) := DecodeForest(buf, 0).value;
      assert ws == [ws[0]];
      assert PrintedDocument(buf, ws[0], closed, rest);
    }
    forall w: Wire, closed: bool, rest: seq<byte> | PrintedDocument(buf, w, closed, rest)
      && children == Meanings(w.body)
      ensures Document(buf) == Ok(children)
    {
      ForestRoundTrip([w], closed, rest, 0);
    }
  }

  predicate PrintedDocument(buf: seq<byte>, w: Wire, closed: bool, rest: seq<byte>) {
    && w.Container? && w.body != []
    && ValidForest([w], closed) && Nesting([w]) <= TLV_MAX_DEPTH
    && (!closed ==> rest == [])
    && buf == EncodeForest([w], closed) + rest
  }
}
