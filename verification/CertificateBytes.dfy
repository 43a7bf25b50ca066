/** Certificates byte by byte, and what the reader makes of any fields (internal/matter/diagnostics.go). */
module CertificateBytes {
  import opened Wrappers
  import opened LittleEndian
  import opened TlvWire
  import opened TlvSpec
  import opened Tlv
  import opened TlvBytes
  import opened Certificates

  // ---------------------------------------------------------------- what is written

  /** The uncompressed-point marker, and 64 bytes that go up by seven from the seed. */
  predicate IsKey(key: seq<byte>, seed: int) {
    |key| == 65 && key[0] == 0x04 && forall i :: 1 <= i <= 64 ==> key[i] == (i * 7 + seed) % 256
  }

  /** A number of eight bytes under a tag. */
  function Octet8(tag: byte, value: Uint64): seq<byte> { [0x27, tag] + ToBytes(value, 8) }

  /** The subject: a list of the one or two numbers. */
  function SubjectBytes(fabricId: Option<Uint64>, subjectTag: byte, subjectId: Uint64): seq<byte> {
    [0x37, 0x06] + Octet8(subjectTag, subjectId)
    + (if fabricId.Some? then Octet8(21, fabricId.value) else []) + [0x18]
  }

  lemma HeadsAre(tag: byte)
    ensures Head(Context(tag), 0x07) == [0x27, tag] && Head(Context(tag), 0x10) == [0x30, tag]
    ensures Head(Context(tag), 0x17) == [0x37, tag] && Head(Anonymous, 0x15) == [0x15]
  {
  }

  lemma OctetsAre(tag: byte, value: seq<byte>)
    requires |value| < 0x100
    ensures Encode(OctetsField(tag, value)) == [0x30, tag, |value|] + value
  {
    HeadsAre(tag);
    assert Encode(OctetsField(tag, value)) == [0x30, tag] + [|value|] + value;
  }

  lemma NumberIs(tag: byte, value: Uint64)
    ensures Encode(Uint64Field(tag, value)) == Octet8(tag, value)
  {
    HeadsAre(tag);
  }

  lemma SubjectIs(fabricId: Option<Uint64>, subjectTag: byte, subjectId: Uint64)
    ensures Encode(SubjectField(fabricId, subjectTag, subjectId)) == SubjectBytes(fabricId, subjectTag, subjectId)
  {
    var ws := Subject(fabricId, subjectTag, subjectId);
    HeadsAre(6);
    NumberIs(subjectTag, subjectId);
    SubjectPrinted([], fabricId, subjectTag, subjectId);
    var printed := Encode(SubjectField(fabricId, subjectTag, subjectId));
    assert [] + printed == printed;
    assert [] + Head(Context(CERT_SUBJECT_TAG), TLV_LIST) == [0x37, 0x06];
    if fabricId.Some? {
      NumberIs(21, fabricId.value);
      assert ws == [ws[0], ws[1]];
      TwoWritten(ws[0], ws[1]);
    } else {
      assert ws == [ws[0]];
      OneWritten(ws[0]);
    }
    assert printed == [0x37, 0x06] + Written(ws) + [0x18];
  }

  const FIRST_DATE: seq<byte> := [0x80, 0x22, 0x81, 0x27]
  const LAST_DATE: seq<byte> := [0x80, 0x25, 0x4d, 0x3a]
  const ZEROS: seq<byte> := [0, 0, 0, 0]

  lemma ZerosAreNothing()
    ensures FromBytes(ZEROS) == 0
  {
    FourBytesRead(0, 0, 0, 0);
  }

  lemma FourBytesRead(b0: byte, b1: byte, b2: byte, b3: byte)
    ensures FromBytes([b0, b1, b2, b3]) == Four(b0, b1, b2, b3)
  {
    FourBytes(b0, b1, b2, b3);
    ReadBack(Four(b0, b1, b2, b3), 4);
  }

  /** The dates in eight bytes: 1 January 2021 and 30 December 2030, in seconds since 2000. */
  lemma DatesAre()
    ensures Octet8(4, 662774400) == [0x27, 0x04] + (FIRST_DATE + ZEROS)
    ensures Octet8(5, 978134400) == [0x27, 0x05] + (LAST_DATE + ZEROS)
  {
    FourBytesRead(0x80, 0x22, 0x81, 0x27);
    FourBytesRead(0x80, 0x25, 0x4d, 0x3a);
    DateIs(FIRST_DATE, 662774400, 4);
    DateIs(LAST_DATE, 978134400, 5);
  }

  lemma DateIs(low: seq<byte>, n: Uint64, tag: byte)
    requires |low| == 4 && FromBytes(low) == n
    ensures Octet8(tag, n) == [0x27, tag] + (low + ZEROS)
  {
    ZerosAreNothing();
    JoinBytes(low, ZEROS);
    WriteBack(low + ZEROS);
    assert |low + ZEROS| == 8 && FromBytes(low + ZEROS) == n;
  }

  lemma KeyIs(seed: int)
    ensures IsKey(Key(seed), seed)
  {
    var key := Key(seed);
    forall i | 1 <= i <= 64
      ensures key[i] == (i * 7 + seed) % 256
    {
      assert key[i] == ((i - 1 + 1) * 7 + seed) % 0x100;
    }
  }

  /** A whole certificate, from its first byte to its last. */
  lemma CertificateIs(fabricId: Option<Uint64>, subjectTag: byte, subjectId: Uint64, seed: int)
    ensures IsKey(Key(seed), seed)
    ensures CertificateBytes(fabricId, subjectTag, subjectId, seed) ==
            [0x15] + ([0x30, 0x01, 0x01, 0x01] + ([0x27, 0x04] + (FIRST_DATE + ZEROS))
                      + ([0x27, 0x05] + (LAST_DATE + ZEROS))
                      + SubjectBytes(fabricId, subjectTag, subjectId) + ([0x30, 0x09, 65] + Key(seed))) + [0x18]
  {
    var ws := Fields(fabricId, subjectTag, subjectId, seed);
    KeyIs(seed);
    OctetsAre(1, [0x01]);
    DatesAre();
    NumberIs(4, 662774400);
    NumberIs(5, 978134400);
    SubjectIs(fabricId, subjectTag, subjectId);
    OctetsAre(9, Key(seed));
    CertificatePrinted(fabricId, subjectTag, subjectId, seed);
    HeadsAre(0);
    FiveWritten(ws);
    assert Encode(ws[0]) == [0x30, 0x01, 0x01, 0x01];
    assert Encode(ws[1]) == Octet8(4, 662774400) && Encode(ws[2]) == Octet8(5, 978134400);
  }

  lemma OneWritten(w: Wire)
    requires ValidWire(w) && !Unclosed(w)
    ensures Closed([w]) && Written([w]) == Encode(w)
  {
    WrittenSnoc([], w);
    assert [] + [w] == [w] && [] + Encode(w) == Encode(w);
  }

  lemma TwoWritten(a: Wire, b: Wire)
    requires Closed([a, b])
    ensures Written([a, b]) == Encode(a) + Encode(b)
  {
    assert a in [a, b] && b in [a, b] && [a] + [b] == [a, b];
    OneWritten(a);
    WrittenSnoc([a], b);
  }

  lemma ThreeWritten(a: Wire, b: Wire, c: Wire)
    requires Closed([a, b, c])
    ensures Written([a, b, c]) == Encode(a) + Encode(b) + Encode(c)
  {
    assert a in [a, b, c] && b in [a, b, c] && c in [a, b, c] && [a, b] + [c] == [a, b, c];
    TwoWritten(a, b);
    WrittenSnoc([a, b], c);
  }

  lemma LastWritten(ws: seq<Wire>, w: Wire)
    requires Closed(ws + [w])
    ensures Closed(ws) && Written(ws + [w]) == Written(ws) + Encode(w)
  {
    assert w in ws + [w] && forall v :: v in ws ==> v in ws + [w];
    WrittenSnoc(ws, w);
  }

  lemma FiveWritten(ws: seq<Wire>)
    requires |ws| == 5 && Closed(ws)
    ensures Written(ws) == Encode(ws[0]) + Encode(ws[1]) + Encode(ws[2]) + Encode(ws[3]) + Encode(ws[4])
  {
    assert ws == ws[..4] + [ws[4]];
    LastWritten(ws[..4], ws[4]);
    assert ws[..4] == [ws[0], ws[1], ws[2]] + [ws[3]];
    LastWritten([ws[0], ws[1], ws[2]], ws[3]);
    ThreeWritten(ws[0], ws[1], ws[2]);
  }

  // ---------------------------------------------------------------- what is read

  predicate HasTag(e: Element, tag: byte) { e.tagged && e.tag == tag }

  predicate IsFirstTagged(es: seq<Element>, tag: byte, k: nat) {
    k < |es| && HasTag(es[k], tag) && forall j :: 0 <= j < k ==> !HasTag(es[j], tag)
  }

  lemma {:induction false} FirstFieldIff(es: seq<Element>, tag: byte)
    ensures FirstField(es, tag).None? <==> forall e :: e in es ==> !HasTag(e, tag)
    ensures FirstField(es, tag).Some? ==>
              exists k: nat :: IsFirstTagged(es, tag, k) && es[k] == FirstField(es, tag).value
  {
    if es != [] {
      if HasTag(es[0], tag) {
        assert IsFirstTagged(es, tag, 0);
      } else {
        FirstFieldIff(es[1..], tag);
        if FirstField(es[1..], tag).Some? {
          var k: nat :| IsFirstTagged(es[1..], tag, k) && es[1..][k] == FirstField(es[1..], tag).value;
          assert IsFirstTagged(es, tag, k + 1);
        }
      }
    }
  }

  /**
   The root an entry's fields give: its key is the first field tagged 9, and its fabric the first
   number tagged 21 in the first field tagged 6. Without a key there is no root.
   */
  ghost predicate IsRootOf(fields: seq<Element>, r: Option<Root>) {
    && (r.None? <==> (forall e :: e in fields ==> !HasTag(e, 9))
                     || (exists k: nat :: IsFirstTagged(fields, 9, k) && fields[k].bytes == []))
    && (r.Some? ==>
          && (exists k: nat :: IsFirstTagged(fields, 9, k) && fields[k].bytes == r.value.publicKey)
          && (r.value.hasFabricId <==> exists s: nat, f: nat :: NamesFabric(fields, s, f))
          && (r.value.hasFabricId ==>
                exists s: nat, f: nat :: NamesFabric(fields, s, f) && fields[s].children[f].num == r.value.fabricId)
          && (!r.value.hasFabricId ==> r.value.fabricId == 0))
  }

  predicate NamesFabric(fields: seq<Element>, s: nat, f: nat) {
    IsFirstTagged(fields, 6, s) && IsFirstTagged(fields[s].children, 21, f)
  }

  lemma RootOfFieldsIs(fields: seq<Element>)
    ensures IsRootOf(fields, RootOfFields(fields))
  {
    var r := RootOfFields(fields);
    FirstFieldIff(fields, 9);
    FirstFieldIff(fields, 6);
    if FirstField(fields, 9).Some? {
      var k: nat :| IsFirstTagged(fields, 9, k) && fields[k] == FirstField(fields, 9).value;
      assert forall j: nat :: IsFirstTagged(fields, 9, j) ==> j == k;
    }
    if FirstField(fields, 6).Some? {
      var s: nat :| IsFirstTagged(fields, 6, s) && fields[s] == FirstField(fields, 6).value;
      assert forall j: nat :: IsFirstTagged(fields, 6, j) ==> j == s;
      FirstFieldIff(fields[s].children, 21);
      if FirstField(fields[s].children, 21).Some? {
        var f: nat :| IsFirstTagged(fields[s].children, 21, f)
                      && fields[s].children[f] == FirstField(fields[s].children, 21).value;
        assert NamesFabric(fields, s, f);
      }
    }
  }

  /** An entry that is not base64 or no document gives no root; any other gives that of its fields. */
  lemma RootOfIs(entry: Option<seq<byte>>)
    ensures match entry
            case None => RootOf(entry) == None
            case Some(buf) =>
              match Document(buf)
              case Err(_) => RootOf(entry) == None
              case Ok(fields) => IsRootOf(fields, RootOf(entry))
  {
    if entry.Some? && Document(entry.value).Ok? {
      RootOfFieldsIs(Document(entry.value).value);
    }
  }

  function Given<T>(value: Option<T>): seq<T> { match value case None => [] case Some(v) => [v] }

  /** What the entries give, one after another. */
  function Collected<A, B>(entries: seq<A>, give: A -> Option<B>): seq<B> {
    if entries == [] then [] else Collected(entries[..|entries| - 1], give) + Given(give(entries[|entries| - 1]))
  }

  lemma CollectedSnoc<A, B>(a: seq<A>, entry: A, give: A -> Option<B>)
    ensures Collected(a + [entry], give) == Collected(a, give) + Given(give(entry))
  {
    assert (a + [entry])[..|a|] == a;
  }

  /** One more entry behind two lists. */
  lemma CollectedStep<A, B>(a: seq<A>, front: seq<A>, last: A, give: A -> Option<B>)
    requires Collected(a + front, give) == Collected(a, give) + Collected(front, give)
    ensures Collected(a + (front + [last]), give) == Collected(a, give) + Collected(front + [last], give)
  {
    CollectedSnoc(a + front, last, give);
    CollectedSnoc(front, last, give);
    Regroup(a, front, [last]);
    Regroup(Collected(a, give), Collected(front, give), Given(give(last)));
  }

  lemma {:induction false} CollectedJoin<A, B>(a: seq<A>, b: seq<A>, give: A -> Option<B>)
    ensures Collected(a + b, give) == Collected(a, give) + Collected(b, give)
    decreases |b|
  {
    if b == [] {
      assert a + b == a;
    } else {
      var front, last := b[..|b| - 1], b[|b| - 1];
      assert b == front + [last];
      CollectedJoin(a, front, give);
      CollectedStep(a, front, last, give);
    }
  }

  lemma Regroup<T>(a: seq<T>, b: seq<T>, c: seq<T>)
    ensures (a + b) + c == a + (b + c)
  {
  }

  lemma CollectedAround<A, B>(a: seq<A>, entry: A, b: seq<A>, give: A -> Option<B>)
    ensures Collected(a + [entry] + b, give) == Collected(a, give) + Given(give(entry)) + Collected(b, give)
  {
    CollectedJoin(a + [entry], b, give);
    CollectedJoin(a, [entry], give);
    assert [entry][..0] == [] && Collected([entry], give) == [] + Given(give(entry));
  }

  function Gives(): Option<seq<byte>> -> Option<Root> { entry => RootOf(entry) }

  lemma {:induction false} RootsAreCollected(encoded: seq<Option<seq<byte>>>)
    ensures RootsOf(encoded) == Collected(encoded, Gives())
  {
    if encoded != [] {
      RootsAreCollected(encoded[..|encoded| - 1]);
    }
  }

  /** An entry adds its root, if it gives one, and leaves those before and behind it alone. */
  lemma RootsAround(a: seq<Option<seq<byte>>>, entry: Option<seq<byte>>, b: seq<Option<seq<byte>>>)
    ensures RootsOf(a + [entry] + b) == RootsOf(a) + Given(RootOf(entry)) + RootsOf(b)
  {
    RootsAreCollected(a + [entry] + b);
    RootsAreCollected(a);
    RootsAreCollected(b);
    CollectedAround(a, entry, b, Gives());
  }

  function Tells(owned: Option<OwnFabric>, hash: (seq<byte>, Uint64) -> seq<byte>): Root -> Option<Evidence> {
    root => EvidenceOf(root, owned, hash)
  }

  lemma {:induction false} EvidenceIsCollected(roots: seq<Root>, owned: Option<OwnFabric>,
                                               hash: (seq<byte>, Uint64) -> seq<byte>)
    ensures Attributed(roots, owned, hash) == Collected(roots, Tells(owned, hash))
  {
    if roots != [] {
      EvidenceIsCollected(roots[..|roots| - 1], owned, hash);
    }
  }

  /** So does a root with its evidence. */
  lemma EvidenceAround(a: seq<Root>, root: Root, b: seq<Root>, owned: Option<OwnFabric>,
                       hash: (seq<byte>, Uint64) -> seq<byte>)
    ensures Attributed(a + [root] + b, owned, hash) ==
            Attributed(a, owned, hash) + Given(EvidenceOf(root, owned, hash)) + Attributed(b, owned, hash)
  {
    EvidenceIsCollected(a + [root] + b, owned, hash);
    EvidenceIsCollected(a, owned, hash);
    EvidenceIsCollected(b, owned, hash);
    CollectedAround(a, root, b, Tells(owned, hash));
  }

  /**
   The evidence of a root: its own fabric before the controller's, the controller's only for its
   own key, and none unless the key is an uncompressed point.
   */
  lemma EvidenceIs(root: Root, owned: Option<OwnFabric>, hash: (seq<byte>, Uint64) -> seq<byte>)
    ensures var ours := owned.Some? && owned.value.publicKey == root.publicKey;
            var e := EvidenceOf(root, owned, hash);
            && (e.Some? <==> (root.hasFabricId || ours) && |root.publicKey| == 65 && root.publicKey[0] == 4)
            && (e.Some? ==>
                  && e.value.isSource == ours
                  && e.value.fabricId == (if root.hasFabricId then root.fabricId else owned.value.fabricId)
                  && e.value.compressed == hash(root.publicKey[1..], e.value.fabricId))
  {
  }
}
