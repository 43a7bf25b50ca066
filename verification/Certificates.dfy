/**
 Matter operational certificates (Matter Core Specification, section 6.5): the
 writer in tools/screenshots/sanitise.py, the root-certificate reader and the
 attribution loop in internal/matter/diagnostics.go.
 */
module Certificates {
  import opened Wrappers
  import opened LittleEndian
  import opened TlvWire
  import opened TlvSpec
  import opened Tlv

  const CERT_SERIAL_TAG: byte := 1
  const CERT_NOT_BEFORE_TAG: byte := 4
  const CERT_NOT_AFTER_TAG: byte := 5
  const CERT_SUBJECT_TAG: byte := 6
  const CERT_PUBLIC_KEY_TAG: byte := 9
  const DN_FABRIC_TAG: byte := 21
  const TLV_UINT64: byte := 0x07
  const NOT_BEFORE: Uint64 := 662774400
  const NOT_AFTER: Uint64 := 978134400

  // ---------------------------------------------------------------- the writer

  function Uint64Field(tag: byte, value: Uint64): (w: Wire)
    ensures ValidWire(w) && w.Scalar? && w.tag.Context?
    ensures Encode(w) == Head(Context(tag), TLV_UINT64) + ToBytes(value, 8)
  {
    EightBytes();
    Scalar(Context(tag), TLV_UINT64, value)
  }

  function OctetsField(tag: byte, value: seq<byte>): (w: Wire)
    requires |value| < 0x100
    ensures ValidWire(w) && w.Blob? && w.tag.Context?
    ensures Encode(w) == Head(Context(tag), TLV_BYTES1) + [|value|] + value
  {
    EightBytes();
    assert ToBytes(|value|, 1) == [|value|];
    Blob(Context(tag), TLV_BYTES1, value)
  }

  /** The synthetic public key: the uncompressed-point marker and 64 seeded bytes. */
  function Key(keySeed: int): (key: seq<byte>)
    ensures |key| == 65 && key[0] == 0x04
  {
    [0x04] + seq(64, i requires 0 <= i < 64 => ((i + 1) * 7 + keySeed) % 0x100)
  }

  function Subject(fabricId: Option<Uint64>, subjectTag: byte, subjectId: Uint64): (ws: seq<Wire>)
    ensures ValidForest(ws, true) && Plain(ws) && Nesting(ws) == 0
  {
    var first := [Uint64Field(subjectTag, subjectId)];
    var ws := if fabricId.Some? then first + [Uint64Field(DN_FABRIC_TAG, fabricId.value)] else first;
    Flat(ws);
    ws
  }

  function SubjectField(fabricId: Option<Uint64>, subjectTag: byte, subjectId: Uint64): (w: Wire)
    ensures ValidWire(w)
  {
    Container(Context(CERT_SUBJECT_TAG), TLV_LIST, Subject(fabricId, subjectTag, subjectId), true)
  }

  /** The fields of a certificate, in the order they are written. */
  function Fields(fabricId: Option<Uint64>, subjectTag: byte, subjectId: Uint64, keySeed: int): seq<Wire> {
    [OctetsField(CERT_SERIAL_TAG, [0x01]),
     Uint64Field(CERT_NOT_BEFORE_TAG, NOT_BEFORE),
     Uint64Field(CERT_NOT_AFTER_TAG, NOT_AFTER),
     SubjectField(fabricId, subjectTag, subjectId),
     OctetsField(CERT_PUBLIC_KEY_TAG, Key(keySeed))]
  }

  /**
   The buffer under construction. `done` are the elements of the container being filled,
   which starts after `head`.
   */
  class Writer {
    var buf: seq<byte>
    ghost var head: seq<byte>
    ghost var done: seq<Wire>

    ghost predicate Valid()
      reads this
    {
      Closed(done) && buf == head + Written(done)
    }

    constructor ()
      ensures buf == [] && Valid() && done == [] && head == []
    {
      buf, head, done := [], [], [];
    }

    /** Puts a control byte and a tag; what follows fills a new container. */
    method OpenElement(kind: byte, tag: Option<byte>)
      requires kind < 0x20
      modifies this
      ensures buf == head == old(buf) + Head(if tag.Some? then Context(tag.value) else Anonymous, kind)
      ensures Valid() && done == []
    {
      buf := buf + [kind + if tag.Some? then 0x20 else 0];
      if tag.Some? {
        buf := buf + [tag.value];
      }
      head, done := buf, [];
      assert buf == old(buf) + Head(if tag.Some? then Context(tag.value) else Anonymous, kind);
    }

    method WriteUint64(tag: byte, value: Uint64)
      requires Valid()
      modifies this
      ensures Valid() && head == old(head) && done == old(done) + [Uint64Field(tag, value)]
    {
      ghost var h, d, b := head, done, buf;
      OpenElement(TLV_UINT64, Some(tag));
      buf := buf + ToBytes(value, 8);
      assert buf == b + Encode(Uint64Field(tag, value));
      head, done := h, d + [Uint64Field(tag, value)];
      WriteOne(h, d, Uint64Field(tag, value));
    }

    method WriteOctets(tag: byte, value: seq<byte>)
      requires Valid() && |value| < 0x100
      modifies this
      ensures Valid() && head == old(head) && done == old(done) + [OctetsField(tag, value)]
    {
      ghost var h, d, b := head, done, buf;
      OpenElement(TLV_BYTES1, Some(tag));
      buf := buf + [|value|];
      buf := buf + value;
      assert buf == b + Encode(OctetsField(tag, value));
      head, done := h, d + [OctetsField(tag, value)];
      WriteOne(h, d, OctetsField(tag, value));
    }

    /** The subject: a list of one or two numbers and its end byte. */
    method WriteSubject(fabricId: Option<Uint64>, subjectTag: byte, subjectId: Uint64)
      requires Valid()
      modifies this
      ensures Valid() && head == old(head) && done == old(done) + [SubjectField(fabricId, subjectTag, subjectId)]
    {
      ghost var h, d, b := head, done, buf;
      OpenElement(TLV_LIST, Some(CERT_SUBJECT_TAG));
      WriteUint64(subjectTag, subjectId);
      if fabricId.Some? {
        WriteUint64(DN_FABRIC_TAG, fabricId.value);
      }
      assert done == Subject(fabricId, subjectTag, subjectId);
      SubjectPrinted(b, fabricId, subjectTag, subjectId);
      buf := buf + [TLV_END];
      head, done := h, d + [SubjectField(fabricId, subjectTag, subjectId)];
      WriteOne(h, d, SubjectField(fabricId, subjectTag, subjectId));
    }
  }

  /** Writes one certificate; the buffer is its fields printed inside an anonymous structure. */
  method TlvCertificate(fabricId: Option<Uint64>, subjectTag: byte, subjectId: Uint64, keySeed: int)
    returns (buf: seq<byte>, key: seq<byte>)
    ensures key == Key(keySeed)
    ensures buf == CertificateBytes(fabricId, subjectTag, subjectId, keySeed)
  {
    var w := new Writer();
    key := [0x04] + seq(64, i requires 0 <= i < 64 => ((i + 1) * 7 + keySeed) % 0x100);
    w.OpenElement(TLV_STRUCT, None);
    WriteFields(w, fabricId, subjectTag, subjectId, keySeed, key);
    CertificatePrinted(fabricId, subjectTag, subjectId, keySeed);
    assert w.buf == Head(Anonymous, TLV_STRUCT) + Written(Fields(fabricId, subjectTag, subjectId, keySeed));
    return w.buf + [TLV_END], key;
  }

  method WriteFields(w: Writer, fabricId: Option<Uint64>, subjectTag: byte, subjectId: Uint64, keySeed: int,
                     key: seq<byte>)
    requires w.Valid() && w.done == [] && key == Key(keySeed)
    modifies w
    ensures w.Valid() && w.head == old(w.head) && w.done == Fields(fabricId, subjectTag, subjectId, keySeed)
  {
    w.WriteOctets(CERT_SERIAL_TAG, [0x01]);
    w.WriteUint64(CERT_NOT_BEFORE_TAG, NOT_BEFORE);
    w.WriteUint64(CERT_NOT_AFTER_TAG, NOT_AFTER);
    w.WriteSubject(fabricId, subjectTag, subjectId);
    w.WriteOctets(CERT_PUBLIC_KEY_TAG, key);
  }

  // Elements in the order they are appended, each closed: what a writer has put down so far.

  predicate Closed(ws: seq<Wire>) {
    forall w :: w in ws ==> ValidWire(w) && !Unclosed(w)
  }

  function Written(ws: seq<Wire>): seq<byte>
    requires Closed(ws)
  {
    if ws == [] then [] else Written(ws[..|ws| - 1]) + Encode(ws[|ws| - 1])
  }

  lemma WrittenSnoc(ws: seq<Wire>, w: Wire)
    requires Closed(ws) && ValidWire(w) && !Unclosed(w)
    ensures Closed(ws + [w]) && Written(ws + [w]) == Written(ws) + Encode(w)
  {
    assert (ws + [w])[..|ws|] == ws;
  }

  lemma WriteOne(before: seq<byte>, ws: seq<Wire>, w: Wire)
    requires Closed(ws) && ValidWire(w) && !Unclosed(w)
    ensures Closed(ws + [w])
    ensures before + Written(ws) + Encode(w) == before + Written(ws + [w])
  {
    WrittenSnoc(ws, w);
    Associate(before, Written(ws), Encode(w));
  }

  lemma Associate(a: seq<byte>, b: seq<byte>, c: seq<byte>)
    ensures (a + b) + c == a + (b + c)
  {
  }

  lemma {:induction false} WrittenCons(w: Wire, ws: seq<Wire>)
    requires Closed([w] + ws) && Closed(ws)
    ensures Written([w] + ws) == Encode(w) + Written(ws)
  {
    assert w in [w] + ws;
    if ws == [] {
      assert [w] + ws == [] + [w];
      WrittenSnoc([], w);
      assert [] + Encode(w) == Encode(w) + [];
    } else {
      var front, last := ws[..|ws| - 1], ws[|ws| - 1];
      assert last in ws;
      assert ws == front + [last];
      assert [w] + ws == ([w] + front) + [last];
      WrittenCons(w, front);
      WrittenSnoc(front, last);
      WrittenSnoc([w] + front, last);
      Associate(Encode(w), Written(front), Encode(last));
    }
  }

  /** A container's body is what was written one element at a time, and its end byte. */
  lemma {:induction false} WrittenForest(ws: seq<Wire>)
    requires Closed(ws)
    ensures ValidForest(ws, true) && EncodeForest(ws, true) == Written(ws) + [TLV_END]
  {
    if ws != [] {
      WrittenForest(ws[1..]);
      WrittenCons(ws[0], ws[1..]);
      assert [ws[0]] + ws[1..] == ws;
    }
  }

  /** The certificate as a wire element: its fields in a closed anonymous structure. */
  function CertificateWire(fabricId: Option<Uint64>, subjectTag: byte, subjectId: Uint64, keySeed: int): (w: Wire)
    ensures ValidForest([w], false) && Nesting([w]) == 2 && Plain([w])
  {
    var fields := Fields(fabricId, subjectTag, subjectId, keySeed);
    FieldsValid(fabricId, subjectTag, subjectId, keySeed);
    var w := Container(Anonymous, TLV_STRUCT, fields, true);
    assert [w][1..] == [];
    w
  }

  lemma FieldsValid(fabricId: Option<Uint64>, subjectTag: byte, subjectId: Uint64, keySeed: int)
    ensures var ws := Fields(fabricId, subjectTag, subjectId, keySeed);
            ValidForest(ws, true) && Plain(ws) && Nesting(ws) == 1
  {
    var ws := Fields(fabricId, subjectTag, subjectId, keySeed);
    Flat(ws[4..]);
    ConsFacts(ws[3..]);
    ConsFacts(ws[2..]);
    ConsFacts(ws[1..]);
    ConsFacts(ws);
  }

  /** A short list of tagged leaves is plain and does not nest. */
  lemma Flat(ws: seq<Wire>)
    requires |ws| <= 2
    requires forall i :: 0 <= i < |ws| ==> ValidWire(ws[i]) && !ws[i].Container? && !ws[i].tag.Profile?
    ensures ValidForest(ws, true) && Plain(ws) && Nesting(ws) == 0
  {
    if |ws| == 2 {
      ConsFacts(ws[1..]);
      ConsFacts(ws);
    } else if |ws| == 1 {
      ConsFacts(ws);
    }
  }

  lemma ConsFacts(ws: seq<Wire>)
    requires ws != [] && ValidWire(ws[0]) && !ws[0].tag.Profile? && ValidForest(ws[1..], true) && Plain(ws[1..])
    requires ws[0].Container? ==> ws[0].closed && Plain(ws[0].body)
    ensures ValidForest(ws, true) && Plain(ws) && Nesting(ws) == Deeper(Levels(ws[0]), Nesting(ws[1..]))
  {
  }

  function CertificateBytes(fabricId: Option<Uint64>, subjectTag: byte, subjectId: Uint64, keySeed: int): seq<byte> {
    EncodeForest([CertificateWire(fabricId, subjectTag, subjectId, keySeed)], false)
  }

  lemma SubjectPrinted(before: seq<byte>, fabricId: Option<Uint64>, subjectTag: byte, subjectId: Uint64)
    ensures var subject := Subject(fabricId, subjectTag, subjectId);
            Closed(subject)
            && before + Head(Context(CERT_SUBJECT_TAG), TLV_LIST) + Written(subject) + [TLV_END]
               == before + Encode(SubjectField(fabricId, subjectTag, subjectId))
  {
    var subject := Subject(fabricId, subjectTag, subjectId);
    var h := Head(Context(CERT_SUBJECT_TAG), TLV_LIST);
    WrittenForest(subject);
    assert Encode(SubjectField(fabricId, subjectTag, subjectId)) == h + (Written(subject) + [TLV_END]);
    assert before + h + Written(subject) + [TLV_END] == before + (h + (Written(subject) + [TLV_END]));
  }

  lemma CertificatePrinted(fabricId: Option<Uint64>, subjectTag: byte, subjectId: Uint64, keySeed: int)
    ensures var fields := Fields(fabricId, subjectTag, subjectId, keySeed);
            && Closed(fields)
            && CertificateBytes(fabricId, subjectTag, subjectId, keySeed)
               == Head(Anonymous, TLV_STRUCT) + Written(fields) + [TLV_END]
  {
    var fields := Fields(fabricId, subjectTag, subjectId, keySeed);
    FieldsValid(fabricId, subjectTag, subjectId, keySeed);
    StructPrinted(fields);
    WrittenForest(fields);
    var h := Head(Anonymous, TLV_STRUCT);
    assert h + (Written(fields) + [TLV_END]) == h + Written(fields) + [TLV_END];
  }

  lemma StructPrinted(ws: seq<Wire>)
    requires ValidForest(ws, true)
    ensures var w := Container(Anonymous, TLV_STRUCT, ws, true);
            ValidForest([w], false) && EncodeForest([w], false) == Head(Anonymous, TLV_STRUCT) + EncodeForest(ws, true)
  {
    var w := Container(Anonymous, TLV_STRUCT, ws, true);
    assert [w][1..] == [];
    assert EncodeForest([w], false) == Encode(w) + [];
  }

  // ---------------------------------------------------------------- the reader

  /** What is read out of a root certificate; the key stays bytes. */
  datatype Root = Root(publicKey: seq<byte>, fabricId: Uint64, hasFabricId: bool)

  function RootOfFields(fields: seq<Element>): Option<Root> {
    match FirstField(fields, CERT_PUBLIC_KEY_TAG)
    case None => None
    case Some(key) =>
      if key.bytes == [] then None
      else
        match FirstField(fields, CERT_SUBJECT_TAG)
        case None => Some(Root(key.bytes, 0, false))
        case Some(subject) =>
          match FirstField(subject.children, DN_FABRIC_TAG)
          case None => Some(Root(key.bytes, 0, false))
          case Some(fabric) => Some(Root(key.bytes, fabric.num, true))
  }

  /** What one entry of the attribute contributes; `None` is an entry that is not base64. */
  function RootOf(entry: Option<seq<byte>>): Option<Root> {
    if entry.None? then None
    else
      match Document(entry.value)
      case Err(_) => None
      case Ok(fields) => RootOfFields(fields)
  }

  function RootsOf(encoded: seq<Option<seq<byte>>>): seq<Root> {
    if encoded == [] then []
    else
      var last := |encoded| - 1;
      RootsOf(encoded[..last]) + match RootOf(encoded[last]) case None => [] case Some(root) => [root]
  }

  /** Unreadable entries are skipped; every other one gives one root, in order. */
  method DecodeRootCertificates(encoded: seq<Option<seq<byte>>>) returns (roots: seq<Root>)
    ensures roots == RootsOf(encoded)
  {
    roots := [];
    for i := 0 to |encoded|
      invariant roots == RootsOf(encoded[..i])
    {
      assert encoded[..i + 1][..i] == encoded[..i];
      if encoded[i].None? {
        continue;
      }
      var fields := TlvDocument(encoded[i].value);
      if fields.Err? {
        continue;
      }
      var key := TlvField(fields.value, CERT_PUBLIC_KEY_TAG);
      if key.None? || |key.value.bytes| == 0 {
        continue;
      }
      var root := Root(key.value.bytes, 0, false);
      var subject := TlvField(fields.value, CERT_SUBJECT_TAG);
      if subject.Some? {
        var fabric := TlvField(subject.value.children, DN_FABRIC_TAG);
        if fabric.Some? {
          root := root.(fabricId := fabric.value.num, hasFabricId := true);
        }
      }
      roots := roots + [root];
    }
    assert encoded[..|encoded|] == encoded;
  }

  lemma FieldsMeaning(fabricId: Option<Uint64>, subjectTag: byte, subjectId: Uint64, keySeed: int)
    ensures Meanings(Fields(fabricId, subjectTag, subjectId, keySeed)) ==
            [Meaning(OctetsField(CERT_SERIAL_TAG, [0x01])),
             Meaning(Uint64Field(CERT_NOT_BEFORE_TAG, NOT_BEFORE)),
             Meaning(Uint64Field(CERT_NOT_AFTER_TAG, NOT_AFTER)),
             Meaning(SubjectField(fabricId, subjectTag, subjectId)),
             Meaning(OctetsField(CERT_PUBLIC_KEY_TAG, Key(keySeed)))]
  {
    var ws := Fields(fabricId, subjectTag, subjectId, keySeed);
    MeaningsAt(ws, 0);
    MeaningsAt(ws, 1);
    MeaningsAt(ws, 2);
    MeaningsAt(ws, 3);
    MeaningsAt(ws, 4);
  }

  lemma {:induction false} MeaningsAt(ws: seq<Wire>, k: nat)
    requires k < |ws|
    ensures Meanings(ws)[k] == Meaning(ws[k])
  {
    if k > 0 {
      MeaningsAt(ws[1..], k - 1);
    }
  }

  lemma {:induction false} FirstFieldSkips(es: seq<Element>, k: nat, tag: byte)
    requires k < |es| && es[k].tagged && es[k].tag == tag
    requires forall j :: 0 <= j < k ==> !(es[j].tagged && es[j].tag == tag)
    ensures FirstField(es, tag) == Some(es[k])
  {
    if k > 0 {
      FirstFieldSkips(es[1..], k - 1, tag);
    }
  }

  /** The fabric a certificate's subject names. A subject number that itself carries tag 21 is read as the fabric. */
  function NamedFabric(fabricId: Option<Uint64>, subjectTag: byte, subjectId: Uint64): Option<Uint64> {
    if subjectTag == DN_FABRIC_TAG then Some(subjectId) else fabricId
  }

  lemma SubjectFabric(fabricId: Option<Uint64>, subjectTag: byte, subjectId: Uint64)
    ensures var es := Meanings(Subject(fabricId, subjectTag, subjectId));
            var named := NamedFabric(fabricId, subjectTag, subjectId);
            if named.None? then FirstField(es, DN_FABRIC_TAG) == None
            else FirstField(es, DN_FABRIC_TAG).Some? && FirstField(es, DN_FABRIC_TAG).value.num == named.value
  {
    var ws := Subject(fabricId, subjectTag, subjectId);
    var es := Meanings(ws);
    MeaningsAt(ws, 0);
    if subjectTag == DN_FABRIC_TAG {
      FirstFieldSkips(es, 0, DN_FABRIC_TAG);
    } else if fabricId.Some? {
      MeaningsAt(ws, 1);
      FirstFieldSkips(es, 1, DN_FABRIC_TAG);
    } else {
      assert es[1..] == [];
    }
  }

  lemma CertificateIsADocument(fabricId: Option<Uint64>, subjectTag: byte, subjectId: Uint64, keySeed: int)
    ensures Document(CertificateBytes(fabricId, subjectTag, subjectId, keySeed)) ==
            Ok(Meanings(CertificateWire(fabricId, subjectTag, subjectId, keySeed).body))
  {
    var buf, w := CertificateBytes(fabricId, subjectTag, subjectId, keySeed),
        CertificateWire(fabricId, subjectTag, subjectId, keySeed);
    FieldsMeaning(fabricId, subjectTag, subjectId, keySeed);
    assert buf == EncodeForest([w], false) + [];
    assert PrintedDocument(buf, w, false, []);
    DocumentAccepts(buf, Meanings(w.body));
  }

  /**
   Every certificate the writer writes is accepted by the reader and gives back its
   public key, and the fabric its subject names: the one passed in, unless the
   subject's own number took the fabric tag.
   */
  lemma CertificateReadsBack(fabricId: Option<Uint64>, subjectTag: byte, subjectId: Uint64, keySeed: int)
    ensures var named := NamedFabric(fabricId, subjectTag, subjectId);
            RootOf(Some(CertificateBytes(fabricId, subjectTag, subjectId, keySeed))) ==
            Some(Root(Key(keySeed), if named.Some? then named.value else 0, named.Some?))
  {
    var es := Meanings(CertificateWire(fabricId, subjectTag, subjectId, keySeed).body);
    FieldsMeaning(fabricId, subjectTag, subjectId, keySeed);
    CertificateIsADocument(fabricId, subjectTag, subjectId, keySeed);
    FirstFieldSkips(es, 4, CERT_PUBLIC_KEY_TAG);
    FirstFieldSkips(es, 3, CERT_SUBJECT_TAG);
    SubjectFabric(fabricId, subjectTag, subjectId);
  }

  // ---------------------------------------------------------------- attribution

  /** The exporting controller's own fabric, as it lists it. */
  datatype OwnFabric = OwnFabric(publicKey: seq<byte>, fabricId: Uint64)

  datatype Evidence = Evidence(isSource: bool, fabricId: Uint64, compressed: seq<byte>)

  /** The fabric a root belongs to: its own subject's, or the controller's when the keys agree. */
  function FabricOf(root: Root, owned: Option<OwnFabric>): Option<Uint64> {
    if root.hasFabricId then Some(root.fabricId)
    else if owned.Some? && owned.value.publicKey == root.publicKey then Some(owned.value.fabricId)
    else None
  }

  predicate UncompressedPoint(key: seq<byte>) { |key| == 65 && key[0] == 0x04 }

  /** What one root contributes; the hash is a parameter. */
  function EvidenceOf(root: Root, owned: Option<OwnFabric>, hash: (seq<byte>, Uint64) -> seq<byte>): Option<Evidence> {
    var fabric := FabricOf(root, owned);
    if fabric.Some? && UncompressedPoint(root.publicKey) then
      Some(Evidence(owned.Some? && root.publicKey == owned.value.publicKey, fabric.value,
                    hash(root.publicKey[1..], fabric.value)))
    else None
  }

  function Attributed(roots: seq<Root>, owned: Option<OwnFabric>,
                      hash: (seq<byte>, Uint64) -> seq<byte>): seq<Evidence> {
    if roots == [] then []
    else
      var last := |roots| - 1;
      Attributed(roots[..last], owned, hash) +
      match EvidenceOf(roots[last], owned, hash) case None => [] case Some(e) => [e]
  }

  /** Each root is either listed with its fabric or counted as unattributed, never both and never neither. */
  method Attribute(roots: seq<Root>, owned: Option<OwnFabric>, hash: (seq<byte>, Uint64) -> seq<byte>)
    returns (fabrics: seq<Evidence>, unattributed: nat)
    ensures fabrics == Attributed(roots, owned, hash)
    ensures |fabrics| + unattributed == |roots|
    ensures unattributed == 0 <==>
            forall root :: root in roots ==> FabricOf(root, owned).Some? && UncompressedPoint(root.publicKey)
  {
    fabrics, unattributed := [], 0;
    for i := 0 to |roots|
      invariant fabrics == Attributed(roots[..i], owned, hash)
      invariant |fabrics| + unattributed == i
      invariant unattributed == 0 <==>
                forall j :: 0 <= j < i ==> FabricOf(roots[j], owned).Some? && UncompressedPoint(roots[j].publicKey)
    {
      assert roots[..i + 1][..i] == roots[..i];
      var root := roots[i];
      var isSource, fabricId, known := false, root.fabricId, root.hasFabricId;
      if owned.Some? && root.publicKey == owned.value.publicKey {
        isSource := true;
        if !known {
          fabricId, known := owned.value.fabricId, true;
        }
      }
      if !known {
        unattributed := unattributed + 1;
        continue;
      }
      if !UncompressedPoint(root.publicKey) {
        unattributed := unattributed + 1;
        continue;
      }
      fabrics := fabrics + [Evidence(isSource, fabricId, hash(root.publicKey[1..], fabricId))];
    }
    assert roots[..|roots|] == roots;
  }

  /** What a certificate is written from. */
  datatype Certificate = Certificate(fabricId: Option<Uint64>, subjectTag: byte, subjectId: Uint64, keySeed: int)

  /** The certificates as an export lists them. */
  function Exported(certificates: seq<Certificate>): (encoded: seq<Option<seq<byte>>>)
    ensures |encoded| == |certificates|
  {
    if certificates == [] then []
    else
      var last := |certificates| - 1;
      var c := certificates[last];
      Exported(certificates[..last]) + [Some(CertificateBytes(c.fabricId, c.subjectTag, c.subjectId, c.keySeed))]
  }

  /**
   The evidence one written certificate should give, told from what it was written from: some if
   and only if its subject names a fabric or its key is the controller's, and then of that fabric.
   */
  function EvidenceFor(c: Certificate, owned: Option<OwnFabric>,
                       hash: (seq<byte>, Uint64) -> seq<byte>): Option<Evidence> {
    var named := NamedFabric(c.fabricId, c.subjectTag, c.subjectId);
    var ours := owned.Some? && owned.value.publicKey == Key(c.keySeed);
    if named.Some? then Some(Evidence(ours, named.value, hash(Key(c.keySeed)[1..], named.value)))
    else if ours then Some(Evidence(true, owned.value.fabricId, hash(Key(c.keySeed)[1..], owned.value.fabricId)))
    else None
  }

  function AllEvidenceFor(certificates: seq<Certificate>, owned: Option<OwnFabric>,
                          hash: (seq<byte>, Uint64) -> seq<byte>)
    : seq<Evidence>
  {
    if certificates == [] then []
    else
      var last := |certificates| - 1;
      AllEvidenceFor(certificates[..last], owned, hash) +
      match EvidenceFor(certificates[last], owned, hash) case None => [] case Some(e) => [e]
  }

  lemma OneCertificate(c: Certificate, owned: Option<OwnFabric>, hash: (seq<byte>, Uint64) -> seq<byte>)
    ensures var root := RootOf(Some(CertificateBytes(c.fabricId, c.subjectTag, c.subjectId, c.keySeed)));
            root.Some? && EvidenceOf(root.value, owned, hash) == EvidenceFor(c, owned, hash)
  {
    CertificateReadsBack(c.fabricId, c.subjectTag, c.subjectId, c.keySeed);
  }

  lemma OneMoreRoot(encoded: seq<Option<seq<byte>>>, entry: Option<seq<byte>>, owned: Option<OwnFabric>,
                    hash: (seq<byte>, Uint64) -> seq<byte>)
    requires RootOf(entry).Some?
    ensures Attributed(RootsOf(encoded + [entry]), owned, hash) ==
            Attributed(RootsOf(encoded), owned, hash) +
            match EvidenceOf(RootOf(entry).value, owned, hash) case None => [] case Some(e) => [e]
  {
    var roots, root := RootsOf(encoded), RootOf(entry).value;
    assert (encoded + [entry])[..|encoded|] == encoded;
    assert RootsOf(encoded + [entry]) == roots + [root];
    assert (roots + [root])[..|roots|] == roots;
  }

  /** Every written certificate of an export gives the evidence it should, in order, whatever the others are. */
  lemma {:induction false} WrittenCertificatesAreAttributed(
    certificates: seq<Certificate>, owned: Option<OwnFabric>, hash: (seq<byte>, Uint64) -> seq<byte>)
    ensures Attributed(RootsOf(Exported(certificates)), owned, hash) == AllEvidenceFor(certificates, owned, hash)
  {
    if certificates != [] {
      var last := |certificates| - 1;
      var c := certificates[last];
      WrittenCertificatesAreAttributed(certificates[..last], owned, hash);
      OneCertificate(c, owned, hash);
      var entry := Some(CertificateBytes(c.fabricId, c.subjectTag, c.subjectId, c.keySeed));
      OneMoreRoot(Exported(certificates[..last]), entry, owned, hash);
    }
  }
}
