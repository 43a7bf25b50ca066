/**
 What the decoder computes, as functions on the unread suffix of the buffer, and
 the proofs that it is the exact inverse of the printer in TlvWire.
 */
module TlvSpec {
  import opened Wrappers
  import opened LittleEndian
  import opened TlvWire

  datatype Error = Truncated | TooDeep | Unsupported(kind: byte) | NotOneContainer

  /** A value read off the front of the buffer and what is left unread. */
  datatype Read<T> = Read(value: T, rest: seq<byte>)

  datatype Forest = Forest(elements: seq<Wire>, closed: bool)

  /** The next `n` bytes. */
  function Take(s: seq<byte>, n: nat): (r: Result<Read<seq<byte>>, Error>)
    ensures r.Ok? <==> n <= |s|
    ensures r.Ok? ==> s == r.value.value + r.value.rest && |r.value.value| == n
    ensures r.Err? ==> r.error == Truncated
  {
    if n <= |s| then Ok(Read(s[..n], s[n..])) else Err(Truncated)
  }

  function DecodeTag(form: nat, s: seq<byte>): (r: Result<Read<Tag>, Error>)
    requires form < 8
    ensures r.Ok? ==> ValidTag(r.value.value) && TagForm(r.value.value) == form
    ensures r.Ok? ==> s == TagBytes(r.value.value) + r.value.rest
  {
    match Take(s, TagWidth(form))
    case Err(e) => Err(e)
    case Ok(Read(raw, rest)) =>
      Ok(Read(if form == 0 then Anonymous else if form == 1 then Context(raw[0]) else Profile(form, raw), rest))
  }

  function DecodeScalar(tag: Tag, kind: byte, s: seq<byte>): (r: Result<Read<Wire>, Error>)
    requires IsScalar(kind)
    ensures r.Ok? ==> |r.value.rest| <= |s|
  {
    match Take(s, ScalarWidth(kind))
    case Err(e) => Err(e)
    case Ok(Read(raw, rest)) =>
      EightBytes();
      Ok(Read(Scalar(tag, kind, FromBytes(raw)), rest))
  }

  function DecodeBlob(tag: Tag, kind: byte, s: seq<byte>): (r: Result<Read<Wire>, Error>)
    requires IsBlob(kind)
    ensures r.Ok? ==> |r.value.rest| <= |s|
  {
    match Take(s, LengthWidth(kind))
    case Err(e) => Err(e)
    case Ok(Read(raw, after)) =>
      match Take(after, FromBytes(raw))
      case Err(e) => Err(e)
      case Ok(Read(payload, rest)) => Ok(Read(Blob(tag, kind, payload), rest))
  }

  function DecodeValue(tag: Tag, kind: byte, s: seq<byte>, depth: nat): (r: Result<Read<Wire>, Error>)
    requires depth <= TLV_MAX_DEPTH
    ensures r.Ok? ==> |r.value.rest| <= |s|
    decreases |s|, 3
  {
    if IsScalar(kind) then DecodeScalar(tag, kind, s)
    else if IsBlob(kind) then DecodeBlob(tag, kind, s)
    else if IsContainer(kind) then
      match DecodeForest(s, depth + 1)
      case Err(e) => Err(e)
      case Ok(Read(Forest(body, closed), rest)) => Ok(Read(Container(tag, kind, body, closed), rest))
    else Err(Unsupported(kind))
  }

  function DecodeElement(s: seq<byte>, depth: nat): (r: Result<Read<Wire>, Error>)
    requires s != [] && depth <= TLV_MAX_DEPTH
    ensures r.Ok? ==> |r.value.rest| < |s|
    decreases |s|, 0
  {
    match DecodeTag(s[0] / 0x20, s[1..])
    case Err(e) => Err(e)
    case Ok(Read(tag, rest)) => DecodeValue(tag, s[0] % 0x20, rest, depth)
  }

  /** Elements up to an end byte or the end of the buffer, at a depth already found acceptable. */
  function DecodeItems(s: seq<byte>, depth: nat): (r: Result<Read<Forest>, Error>)
    requires depth <= TLV_MAX_DEPTH
    ensures r.Ok? ==> |r.value.rest| <= |s|
    decreases |s|, 1
  {
    if s == [] then Ok(Read(Forest([], false), []))
    else if s[0] == TLV_END then Ok(Read(Forest([], true), s[1..]))
    else
      match DecodeElement(s, depth)
      case Err(e) => Err(e)
      case Ok(Read(w, rest)) =>
        match DecodeItems(rest, depth)
        case Err(e) => Err(e)
        case Ok(Read(Forest(ws, closed), end)) => Ok(Read(Forest([w] + ws, closed), end))
  }

  function DecodeForest(s: seq<byte>, depth: nat): (r: Result<Read<Forest>, Error>)
    ensures r.Ok? ==> |r.value.rest| <= |s|
    decreases |s|, 2
  {
    if depth > TLV_MAX_DEPTH then Err(TooDeep) else DecodeItems(s, depth)
  }

  // ---------------------------------------------------------------- decoding undoes encoding

  lemma TagRoundTrip(tag: Tag, rest: seq<byte>)
    requires ValidTag(tag)
    ensures DecodeTag(TagForm(tag), TagBytes(tag) + rest) == Ok(Read(tag, rest))
  {
    var s := TagBytes(tag) + rest;
    assert s[..|TagBytes(tag)|] == TagBytes(tag) && s[|TagBytes(tag)|..] == rest;
  }

  lemma ScalarRoundTrip(w: Wire, rest: seq<byte>)
    requires w.Scalar? && ValidWire(w)
    ensures DecodeScalar(w.tag, w.kind, ToBytes(w.num, ScalarWidth(w.kind)) + rest) == Ok(Read(w, rest))
  {
    var width := ScalarWidth(w.kind);
    var s := ToBytes(w.num, width) + rest;
    assert s[..width] == ToBytes(w.num, width) && s[width..] == rest;
    ReadBack(w.num, width);
  }

  lemma BlobRoundTrip(w: Wire, rest: seq<byte>)
    requires w.Blob? && ValidWire(w)
    ensures DecodeBlob(w.tag, w.kind, ToBytes(|w.payload|, LengthWidth(w.kind)) + w.payload + rest) == Ok(Read(w, rest))
  {
    var width, n := LengthWidth(w.kind), |w.payload|;
    var s := ToBytes(n, width) + w.payload + rest;
    assert s[..width] == ToBytes(n, width) && s[width..] == w.payload + rest;
    assert (w.payload + rest)[..n] == w.payload && (w.payload + rest)[n..] == rest;
    ReadBack(n, width);
  }

  /**
   What decoding a printed forest gives at a depth: the forest when it nests no deeper than
   allowed, TooDeep otherwise.
   */
  function Expected(ws: seq<Wire>, closed: bool, rest: seq<byte>, depth: nat): Result<Read<Forest>, Error> {
    if depth + Nesting(ws) <= TLV_MAX_DEPTH then Ok(Read(Forest(ws, closed), rest)) else Err(TooDeep)
  }

  lemma HeadRoundTrip(tag: Tag, kind: byte, value: seq<byte>, depth: nat)
    requires ValidTag(tag) && kind < 0x20 && depth <= TLV_MAX_DEPTH
    ensures DecodeElement(Head(tag, kind) + value, depth) == DecodeValue(tag, kind, value, depth)
  {
    var s := Head(tag, kind) + value;
    assert s[1..] == TagBytes(tag) + value;
    TagRoundTrip(tag, value);
  }

  lemma HeadIsNotTheEnd(tag: Tag, kind: byte)
    requires ValidTag(tag) && kind < TLV_END
    ensures Head(tag, kind)[0] != TLV_END
  {
    assert TLV_END % 0x20 == TLV_END;
  }

  /** The decoder's answer for a printed element: the element when it fits the depth limit, TooDeep otherwise. */
  function ExpectedElement(w: Wire, rest: seq<byte>, depth: nat): Result<Read<Wire>, Error> {
    if depth + Levels(w) <= TLV_MAX_DEPTH then Ok(Read(w, rest)) else Err(TooDeep)
  }

  lemma {:induction false} ValueRoundTrip(w: Wire, rest: seq<byte>, depth: nat)
    requires ValidWire(w) && depth <= TLV_MAX_DEPTH
    requires Unclosed(w) ==> rest == []
    ensures DecodeValue(w.tag, w.kind, EncodeValue(w) + rest, depth) == ExpectedElement(w, rest, depth)
    decreases w, 0
  {
    match w
    case Scalar(_, kind, num) =>
      assert EncodeValue(w) == ToBytes(num, ScalarWidth(kind));
      ScalarRoundTrip(w, rest);
    case Blob(_, kind, payload) =>
      assert EncodeValue(w) == ToBytes(|payload|, LengthWidth(kind)) + payload;
      BlobRoundTrip(w, rest);
    case Container(_, _, body, closed) =>
      ForestRoundTrip(body, closed, rest, depth + 1);
  }

  lemma {:induction false} ElementRoundTrip(w: Wire, rest: seq<byte>, depth: nat)
    requires ValidWire(w) && depth <= TLV_MAX_DEPTH
    requires Unclosed(w) ==> rest == []
    ensures DecodeElement(Encode(w) + rest, depth) == ExpectedElement(w, rest, depth)
    decreases w, 1
  {
    var value := EncodeValue(w) + rest;
    assert Encode(w) + rest == Head(w.tag, w.kind) + value;
    HeadRoundTrip(w.tag, w.kind, value, depth);
    ValueRoundTrip(w, rest, depth);
  }

  /**
   Decoding undoes encoding, at every depth and for every forest of the 24 kinds:
   a forest that fits the depth limit comes back whole with exactly the bytes after
   it unread; one that nests deeper is refused as too deep and for no other reason.
   */
  lemma {:induction false} ForestRoundTrip(ws: seq<Wire>, closed: bool, rest: seq<byte>, depth: nat)
    requires ValidForest(ws, closed)
    requires !closed ==> rest == []
    ensures DecodeForest(EncodeForest(ws, closed) + rest, depth) == Expected(ws, closed, rest, depth)
    decreases ws, 1
  {
    if depth <= TLV_MAX_DEPTH {
      if ws == [] {
        assert closed ==> (([TLV_END] + rest)[1..] == rest);
      } else {
        var after := EncodeForest(ws[1..], closed) + rest;
        ElementRoundTrip(ws[0], after, depth);
        ForestRoundTrip(ws[1..], closed, rest, depth);
        PrintedCons(ws, closed, rest);
        ResumeExpected(ws[0], ws[1..], closed, after, rest, depth);
        assert [ws[0]] + ws[1..] == ws;
      }
    }
  }

  /** Reading on after one element. */
  function Resume(e: Result<Read<Wire>, Error>, depth: nat): Result<Read<Forest>, Error>
    requires depth <= TLV_MAX_DEPTH
  {
    match e
    case Err(error) => Err(error)
    case Ok(Read(w, rest)) =>
      match DecodeItems(rest, depth)
      case Err(error) => Err(error)
      case Ok(Read(Forest(ws, closed), end)) => Ok(Read(Forest([w] + ws, closed), end))
  }

  lemma ResumeExpected(w: Wire, tail: seq<Wire>, closed: bool, after: seq<byte>, rest: seq<byte>, depth: nat)
    requires depth <= TLV_MAX_DEPTH
    requires DecodeForest(after, depth) == Expected(tail, closed, rest, depth)
    ensures Resume(ExpectedElement(w, after, depth), depth) == Expected([w] + tail, closed, rest, depth)
  {
    assert ([w] + tail)[1..] == tail;
  }

  lemma PrintedCons(ws: seq<Wire>, closed: bool, rest: seq<byte>)
    requires ws != [] && ValidForest(ws, closed)
    ensures EncodeForest(ws, closed) + rest == Encode(ws[0]) + (EncodeForest(ws[1..], closed) + rest)
    ensures Encode(ws[0]) != [] && Encode(ws[0])[0] != TLV_END
  {
    HeadIsNotTheEnd(ws[0].tag, ws[0].kind);
  }

  // ---------------------------------------------------------------- encoding undoes decoding

  lemma ScalarReencodes(tag: Tag, kind: byte, s: seq<byte>)
    requires ValidTag(tag) && IsScalar(kind)
    ensures var r := DecodeScalar(tag, kind, s);
            r.Ok? ==> ValidWire(r.value.value) && s == EncodeValue(r.value.value) + r.value.rest
  {
    var width := ScalarWidth(kind);
    if width <= |s| {
      WriteBack(s[..width]);
    }
  }

  lemma BlobReencodes(tag: Tag, kind: byte, s: seq<byte>)
    requires ValidTag(tag) && IsBlob(kind)
    ensures var r := DecodeBlob(tag, kind, s);
            r.Ok? ==> ValidWire(r.value.value) && s == EncodeValue(r.value.value) + r.value.rest
  {
    var width := LengthWidth(kind);
    if width <= |s| {
      var raw, after := s[..width], s[width..];
      WriteBack(raw);
      var n := FromBytes(raw);
      if n <= |after| {
        assert s == (raw + after[..n]) + after[n..];
      }
    }
  }

  /** What holds of every element and every forest the decoder hands out. */
  predicate Faithful(r: Result<Read<Wire>, Error>, s: seq<byte>, depth: nat) {
    r.Ok? ==>
      var Read(w, rest) := r.value;
      && ValidWire(w)
      && s == EncodeValue(w) + rest
      && depth + Levels(w) <= TLV_MAX_DEPTH
      && (Unclosed(w) ==> rest == [])
  }

  predicate FaithfulForest(r: Result<Read<Forest>, Error>, s: seq<byte>, depth: nat) {
    r.Ok? ==>
      var Read(Forest(ws, closed), rest) := r.value;
      && ValidForest(ws, closed)
      && s == EncodeForest(ws, closed) + rest
      && depth + Nesting(ws) <= TLV_MAX_DEPTH
      && (!closed ==> rest == [])
  }

  lemma {:induction false} ValueReencodes(tag: Tag, kind: byte, s: seq<byte>, depth: nat)
    requires ValidTag(tag) && depth <= TLV_MAX_DEPTH
    ensures Faithful(DecodeValue(tag, kind, s, depth), s, depth)
    decreases |s|, 3
  {
    if IsScalar(kind) {
      ScalarReencodes(tag, kind, s);
    } else if IsBlob(kind) {
      BlobReencodes(tag, kind, s);
    } else if IsContainer(kind) {
      ForestReencodes(s, depth + 1);
      ContainerReencodes(tag, kind, s, depth);
    }
  }

  lemma ContainerReencodes(tag: Tag, kind: byte, s: seq<byte>, depth: nat)
    requires ValidTag(tag) && IsContainer(kind) && depth <= TLV_MAX_DEPTH
    requires FaithfulForest(DecodeForest(s, depth + 1), s, depth + 1)
    ensures Faithful(DecodeValue(tag, kind, s, depth), s, depth)
  {
  }

  predicate FaithfulElement(r: Result<Read<Wire>, Error>, s: seq<byte>, depth: nat) {
    r.Ok? ==>
      var Read(w, rest) := r.value;
      && ValidWire(w)
      && s == Encode(w) + rest
      && depth + Levels(w) <= TLV_MAX_DEPTH
      && (Unclosed(w) ==> rest == [])
  }

  lemma {:induction false} ElementReencodes(s: seq<byte>, depth: nat)
    requires s != [] && depth <= TLV_MAX_DEPTH
    ensures FaithfulElement(DecodeElement(s, depth), s, depth)
    decreases |s|, 0
  {
    var form, kind: byte := s[0] / 0x20, s[0] % 0x20;
    var t := DecodeTag(form, s[1..]);
    if t.Ok? {
      var Read(tag, after) := t.value;
      ValueReencodes(tag, kind, after, depth);
      DecodedHead(tag, kind, after, depth);
      HeadIsRead(s);
      HeadedValue(tag, kind, s, after, depth, DecodeValue(tag, kind, after, depth));
    }
  }

  lemma HeadedValue(tag: Tag, kind: byte, s: seq<byte>, after: seq<byte>, depth: nat, r: Result<Read<Wire>, Error>)
    requires ValidTag(tag) && kind < 0x20 && s == Head(tag, kind) + after
    requires Faithful(r, after, depth) && (r.Ok? ==> r.value.value.tag == tag && r.value.value.kind == kind)
    ensures FaithfulElement(r, s, depth)
  {
    if r.Ok? {
      assert Head(tag, kind) + (EncodeValue(r.value.value) + r.value.rest) == Encode(r.value.value) + r.value.rest;
    }
  }

  lemma HeadIsRead(s: seq<byte>)
    requires s != []
    ensures var t := DecodeTag(s[0] / 0x20, s[1..]);
            t.Ok? ==> s == Head(t.value.value, s[0] % 0x20) + t.value.rest
  {
    assert s == [s[0]] + s[1..];
  }

  lemma ConsReencodes(w: Wire, rest: seq<byte>, s: seq<byte>, depth: nat)
    requires depth <= TLV_MAX_DEPTH && FaithfulElement(Ok(Read(w, rest)), s, depth)
    requires FaithfulForest(DecodeItems(rest, depth), rest, depth)
    ensures FaithfulForest(Resume(Ok(Read(w, rest)), depth), s, depth)
  {
    var f := DecodeItems(rest, depth);
    if f.Ok? {
      var tail := f.value.value.elements;
      assert ([w] + tail)[1..] == tail;
      assert s == Encode(w) + (EncodeForest(tail, f.value.value.closed) + f.value.rest);
    }
  }

  lemma DecodedHead(tag: Tag, kind: byte, s: seq<byte>, depth: nat)
    requires depth <= TLV_MAX_DEPTH
    ensures var r := DecodeValue(tag, kind, s, depth);
            r.Ok? ==> r.value.value.tag == tag && r.value.value.kind == kind
  {
  }

  /**
   Encoding undoes decoding: whatever the decoder accepts is exactly one printed
   forest followed by the bytes it left unread, within the depth limit, and an end
   byte is missing only when the buffer ran out.
   */
  lemma {:induction false} ForestReencodes(s: seq<byte>, depth: nat)
    ensures FaithfulForest(DecodeForest(s, depth), s, depth)
    decreases |s|, 1
  {
    if depth <= TLV_MAX_DEPTH && s != [] && s[0] != TLV_END {
      ElementReencodes(s, depth);
      var e := DecodeElement(s, depth);
      if e.Ok? {
        ForestReencodes(e.value.rest, depth);
        ConsReencodes(e.value.value, e.value.rest, s, depth);
      }
    }
  }

  /** The decoder accepts a buffer with a given outcome if and only if the buffer is that outcome printed. */
  lemma DecodesExactlyThePrinted(s: seq<byte>, depth: nat, ws: seq<Wire>, closed: bool, rest: seq<byte>)
    ensures DecodeForest(s, depth) == Ok(Read(Forest(ws, closed), rest)) <==>
            && ValidForest(ws, closed)
            && s == EncodeForest(ws, closed) + rest
            && depth + Nesting(ws) <= TLV_MAX_DEPTH
            && (!closed ==> rest == [])
  {
    ForestReencodes(s, depth);
    if ValidForest(ws, closed) && (!closed ==> rest == []) {
      ForestRoundTrip(ws, closed, rest, depth);
    }
  }

  // ---------------------------------------------------------------- no loss on certificates' fragment

  /** No wide tags and no container left open: what certificates use. */
  predicate Plain(ws: seq<Wire>)
    decreases ws
  {
    ws == [] ||
    (!ws[0].tag.Profile? && (ws[0].Container? ==> ws[0].closed && Plain(ws[0].body)) && Plain(ws[1..]))
  }

  /** Rebuild the wire form of an element from what the decoder reported. */
  function Rebuild(e: Element): Wire
    decreases e, 0
  {
    var tag := if e.tagged then Context(e.tag) else Anonymous;
    if IsBlob(e.kind) then Blob(tag, e.kind, if e.kind >= TLV_BYTES1 then e.bytes else e.text)
    else if IsContainer(e.kind) then Container(tag, e.kind, RebuildAll(e.children), true)
    else Scalar(tag, e.kind, if e.kind == TLV_FALSE || e.kind == TLV_TRUE then 0 else e.num)
  }

  function RebuildAll(es: seq<Element>): seq<Wire>
    decreases es, 1
  {
    if es == [] then [] else [Rebuild(es[0])] + RebuildAll(es[1..])
  }

  lemma {:induction false} RebuildMeaning(w: Wire)
    requires ValidWire(w) && !w.tag.Profile? && (w.Container? ==> w.closed && Plain(w.body))
    ensures Rebuild(Meaning(w)) == w
    decreases w, 0
  {
    if w.Container? {
      RebuildMeanings(w.body, w.closed);
    }
  }

  lemma {:induction false} RebuildMeanings(ws: seq<Wire>, closed: bool)
    requires ValidForest(ws, closed) && Plain(ws)
    ensures RebuildAll(Meanings(ws)) == ws
    decreases ws, 1
  {
    if ws != [] {
      var w := ws[0];
      RebuildMeanings(ws[1..], closed);
      RebuildMeaning(w);
      assert Meanings(ws)[1..] == Meanings(ws[1..]);
      assert ws == [w] + ws[1..];
    }
  }

  /**
   On that fragment the elements alone determine the bytes: two buffers that
   decode to the same elements consumed the same bytes, namely the elements printed again.
   */
  lemma PlainBytesFromElements(s: seq<byte>, depth: nat)
    ensures var r := DecodeForest(s, depth);
            r.Ok? && Plain(r.value.value.elements) && r.value.value.closed ==>
              var ws := RebuildAll(Meanings(r.value.value.elements));
              ValidForest(ws, true) && s == EncodeForest(ws, true) + r.value.rest
  {
    ForestReencodes(s, depth);
    var r := DecodeForest(s, depth);
    if r.Ok? && Plain(r.value.value.elements) && r.value.value.closed {
      RebuildMeanings(r.value.value.elements, true);
    }
  }
}
