/**
 The wire grammar of Matter TLV (Matter Core Specification, Appendix A): what a
 sequence of elements is on the wire, written as a printer, and what it means.
 The decoder in Tlv.dfy is proved to be the exact inverse of this printer.
 */
module TlvWire {
  import opened LittleEndian

  const TLV_FALSE: byte := 0x08
  const TLV_TRUE: byte := 0x09
  const TLV_DOUBLE: byte := 0x0b
  const TLV_UTF8_1: byte := 0x0c
  const TLV_BYTES1: byte := 0x10
  const TLV_BYTES8: byte := 0x13
  const TLV_NULL: byte := 0x14
  const TLV_STRUCT: byte := 0x15
  const TLV_LIST: byte := 0x17
  const TLV_END: byte := 0x18
  const TLV_MAX_DEPTH: nat := 16

  /** What decoding reports of an element; fields its kind has no use for are zero or empty. */
  datatype Element = Element(
    tag: byte,
    tagged: bool,
    kind: byte,
    num: Uint64,
    bytes: seq<byte>,
    text: seq<byte>,
    children: seq<Element>)

  /** The tag in front of a value. `Profile` covers the six wide forms 2 to 7. */
  datatype Tag =
    | Anonymous
    | Context(tag: byte)
    | Profile(form: nat, raw: seq<byte>)

  /** An element as it stands on the wire. `closed` says whether the container's end byte is there. */
  datatype Wire =
    | Scalar(tag: Tag, kind: byte, num: Uint64)
    | Blob(tag: Tag, kind: byte, payload: seq<byte>)
    | Container(tag: Tag, kind: byte, body: seq<Wire>, closed: bool)

  predicate IsScalar(kind: int) { 0 <= kind <= TLV_DOUBLE || kind == TLV_NULL }
  predicate IsBlob(kind: int) { TLV_UTF8_1 <= kind <= TLV_BYTES8 }
  predicate IsContainer(kind: int) { TLV_STRUCT <= kind <= TLV_LIST }

  /** Bytes of value after the tag of a scalar kind. */
  function ScalarWidth(kind: int): nat {
    match kind
    case 0x00 | 0x04 => 1
    case 0x01 | 0x05 => 2
    case 0x02 | 0x06 | 0x0a => 4
    case 0x03 | 0x07 | 0x0b => 8
    case _ => 0
  }

  /** Bytes of length in front of a string or byte string. */
  function LengthWidth(kind: int): nat {
    match kind % 4
    case 0 => 1
    case 1 => 2
    case 2 => 4
    case _ => 8
  }

  function TagForm(tag: Tag): nat {
    match tag
    case Anonymous => 0
    case Context(_) => 1
    case Profile(form, _) => form
  }

  /** Bytes of tag that follow a control byte of this form. */
  function TagWidth(form: nat): nat {
    match form
    case 0 => 0
    case 1 => 1
    case 2 | 4 => 2
    case 3 | 5 => 4
    case 6 => 6
    case _ => 8
  }

  function TagBytes(tag: Tag): seq<byte> {
    match tag
    case Anonymous => []
    case Context(t) => [t]
    case Profile(_, raw) => raw
  }

  predicate ValidTag(tag: Tag) {
    tag.Profile? ==> 2 <= tag.form <= 7 && |tag.raw| == TagWidth(tag.form)
  }

  /** A container whose end byte is missing. */
  predicate Unclosed(w: Wire) { w.Container? && !w.closed }

  predicate ValidWire(w: Wire)
    decreases w, 0
  {
    && ValidTag(w.tag)
    && match w
       case Scalar(_, kind, num) => IsScalar(kind) && num < Limit(ScalarWidth(kind))
       case Blob(_, kind, payload) => IsBlob(kind) && |payload| < Limit(LengthWidth(kind))
       case Container(_, kind, body, closed) => IsContainer(kind) && ValidForest(body, closed)
  }

  /** A missing end byte can only stand at the very end: nothing after it, nothing closed around it. */
  predicate ValidForest(ws: seq<Wire>, closed: bool)
    decreases ws, 1
  {
    ws == [] ||
    (ValidWire(ws[0]) && ValidForest(ws[1..], closed) && (Unclosed(ws[0]) ==> |ws| == 1 && !closed))
  }

  function Control(form: nat, kind: byte): (c: byte)
    requires form < 8 && kind < 0x20
    ensures c / 0x20 == form && c % 0x20 == kind
  {
    form * 0x20 + kind
  }

  /** The control byte and the tag. */
  function Head(tag: Tag, kind: byte): (s: seq<byte>)
    requires ValidTag(tag) && kind < 0x20
    ensures s != []
  {
    [Control(TagForm(tag), kind)] + TagBytes(tag)
  }

  /** The printer. */
  function Encode(w: Wire): seq<byte>
    requires ValidWire(w)
    decreases w, 1
  {
    Head(w.tag, w.kind) + EncodeValue(w)
  }

  function EncodeValue(w: Wire): seq<byte>
    requires ValidWire(w)
    decreases w, 0
  {
    match w
    case Scalar(_, kind, num) => ToBytes(num, ScalarWidth(kind))
    case Blob(_, kind, payload) => ToBytes(|payload|, LengthWidth(kind)) + payload
    case Container(_, _, body, closed) => EncodeForest(body, closed)
  }

  function EncodeForest(ws: seq<Wire>, closed: bool): seq<byte>
    requires ValidForest(ws, closed)
    decreases ws, 1
  {
    if ws == [] then (if closed then [TLV_END] else [])
    else Encode(ws[0]) + EncodeForest(ws[1..], closed)
  }

  /** How deep containers nest; 0 when there are none. */
  function Nesting(ws: seq<Wire>): nat
    decreases ws, 1
  {
    if ws == [] then 0 else Deeper(Levels(ws[0]), Nesting(ws[1..]))
  }

  function Levels(w: Wire): nat
    decreases w, 0
  {
    if w.Container? then 1 + Nesting(w.body) else 0
  }

  function Deeper(a: nat, b: nat): nat { if a > b then a else b }

  /** What the decoder reports for an element: wide tags are dropped, everything else is kept. */
  function Meaning(w: Wire): Element
    decreases w, 0
  {
    var tag := if w.tag.Context? then w.tag.tag else 0;
    var tagged := w.tag.Context?;
    match w
    case Scalar(_, kind, num) =>
      var value := if kind == TLV_FALSE then 0 else if kind == TLV_TRUE then 1 else num;
      Element(tag, tagged, kind, value, [], [], [])
    case Blob(_, kind, payload) =>
      if kind >= TLV_BYTES1 then Element(tag, tagged, kind, 0, payload, [], [])
      else Element(tag, tagged, kind, 0, [], payload, [])
    case Container(_, kind, body, _) =>
      Element(tag, tagged, kind, 0, [], [], Meanings(body))
  }

  function Meanings(ws: seq<Wire>): (es: seq<Element>)
    ensures |es| == |ws|
    decreases ws, 1
  {
    if ws == [] then [] else [Meaning(ws[0])] + Meanings(ws[1..])
  }
}
