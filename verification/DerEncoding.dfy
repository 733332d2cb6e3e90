/**
 The decoder of deploy/docker/all-in-one/generate_auth_keys.py against ITU-T X.690: definite lengths
 (section 8.1.3), integers (section 8.3), sequences (section 8.9) and the distinguished form (section 10.1).
 */
module DerEncoding {
  import opened Common
  import opened DerSignature

  /** The length octets and contents of the sequence and of its two integers. */
  datatype Parts = Parts(header: seq<Byte>, rLength: seq<Byte>, r: seq<Byte>, sLength: seq<Byte>, s: seq<Byte>)

  /** A length that the decoder reads, on its way through input that it accepts. */
  function LengthAt(der: seq<Byte>, offset: nat): Read {
    var length := ReadLength(der, offset);
    if length.Ok? then length.value else Read(0, offset)
  }

  /** The offsets that the decoder goes by, and the end of the second integer. */
  function MarksRead(der: seq<Byte>): (Marks, nat) {
    var start := LengthAt(der, 1).next;
    var first := LengthAt(der, start + 1);
    var second := LengthAt(der, first.next + first.value + 1);
    (Marks(start, first.next, first.next + first.value, second.next), second.next + second.value)
  }

  function SlicesAt(der: seq<Byte>, k: Marks, end: nat): Parts {
    Parts(Slice(der, 1, k.header), Slice(der, k.header + 1, k.rLength), Slice(der, k.rLength, k.r),
          Slice(der, k.r + 1, k.sLength), Slice(der, k.sLength, end))
  }

  /** What the decoder takes for them; where the second integer is not all there, its contents are what there is. */
  function PartsRead(der: seq<Byte>): Parts { SlicesAt(der, MarksRead(der).0, MarksRead(der).1) }

  // ----- encodings -----

  /** Sections 8.1.3.3 to 8.1.3.5: 0x80 stands for the indefinite form, and 0xFF for nothing yet. */
  predicate IsFirstLengthOctet(b: Byte) { b != 0x80 && b != 0xFF }

  ghost predicate IsLength(enc: seq<Byte>, n: nat) { ReadsAsLength(enc, n) && IsFirstLengthOctet(enc[0]) }

  /** Sections 8.3.1 and 8.3.2: one octet or more, of which the first nine bits are not all alike. */
  predicate IsIntegerContents(c: seq<Byte>) {
    c != [] && (|c| > 1 ==> !(c[0] == 0 && c[1] < 0x80) && !(c[0] == 0xFF && c[1] >= 0x80))
  }

  /** Section 8.3.3: the two's complement number of the first n octets. */
  function Signed(c: seq<Byte>, n: nat): int
    requires 0 < n <= |c|
  {
    if n == 1 then (if c[0] >= 0x80 then c[0] - 0x100 else c[0]) else Signed(c, n - 1) * 256 + c[n - 1]
  }

  function Value(c: seq<Byte>): int
    requires c != []
  {
    Signed(c, |c|)
  }

  /** An encoding of a SEQUENCE of two INTEGERs. */
  ghost predicate IsEncoding(enc: seq<Byte>, p: Parts) {
    var first, second := Integer(p.rLength, p.r), Integer(p.sLength, p.s);
    && enc == Sequence(p.header, first, second)
    && IsLength(p.header, |first| + |second|) && IsLength(p.rLength, |p.r|) && IsLength(p.sLength, |p.s|)
    && IsIntegerContents(p.r) && IsIntegerContents(p.s)
  }

  ghost predicate BeginsWithEncoding(der: seq<Byte>) { exists k, p :: 0 <= k <= |der| && IsEncoding(der[..k], p) }

  // ----- signs -----

  lemma {:induction false} SignedOrUnsigned(c: seq<Byte>, n: nat)
    requires 0 < n <= |c|
    ensures Signed(c, n) == Number(c, n) - if c[0] >= 0x80 then Pow256(n) else 0
  {
    if n == 1 {
      assert Number(c, 0) == 0 && Pow256(0) == 1;
    } else {
      SignedOrUnsigned(c, n - 1);
    }
  }

  lemma {:induction false} PowPositive(k: nat)
    ensures Pow256(k) > 0
  {
    if k > 0 {
      PowPositive(k - 1);
    }
  }

  /** Contents are worth what they are without a sign exactly if they begin below 0x80. */
  lemma ValueIsUnsignedIff(c: seq<Byte>)
    requires c != []
    ensures Value(c) == FromBytes(c) <==> c[0] < 0x80
    ensures c[0] >= 0x80 ==> Value(c) == FromBytes(c) - Pow256(|c|)
  {
    SignedOrUnsigned(c, |c|);
    PowPositive(|c|);
  }

  /** An encoding is decoded, whatever follows it; its values come out exactly if neither is negative. */
  lemma DecodesEncodingsIff(enc: seq<Byte>, p: Parts, after: seq<Byte>)
    requires IsEncoding(enc, p)
    ensures Decode(enc + after) == Ok(Signature(FromBytes(p.r), FromBytes(p.s)))
    ensures var sig := Decode(enc + after).value;
            sig.r == Value(p.r) && sig.s == Value(p.s) <==> p.r[0] < 0x80 && p.s[0] < 0x80
  {
    EncodingIsFraming(enc, p);
    DecodesFramings(enc, HeaderValue(p), p.header, p.rLength, p.r, p.sLength, p.s, after);
    ValueIsUnsignedIff(p.r);
    ValueIsUnsignedIff(p.s);
  }

  function HeaderValue(p: Parts): nat { |Integer(p.rLength, p.r)| + |Integer(p.sLength, p.s)| }

  lemma EncodingIsFraming(enc: seq<Byte>, p: Parts)
    requires IsEncoding(enc, p)
    ensures IsFraming(enc, HeaderValue(p), p.header, p.rLength, p.r, p.sLength, p.s)
  {
  }

  // ----- a framing is read in one way -----

  /** What the decoder reads at the marks. */
  ghost predicate ReadAt(der: seq<Byte>, k: Marks, n: nat, m: nat) {
    && k.rLength <= k.r
    && ReadLength(der, 1) == Ok(Read(n, k.header))
    && ReadLength(der, k.header + 1) == Ok(Read(k.r - k.rLength, k.rLength))
    && ReadLength(der, k.r + 1) == Ok(Read(m, k.sLength))
  }

  lemma FirstLength(der: seq<Byte>, k: Marks, n: nat, m: nat)
    requires LaidOut(der, k, n, m)
    ensures ReadLength(der, k.header + 1) == Ok(Read(k.r - k.rLength, k.rLength))
  {
    LengthReads(der, k.header + 1, k.rLength, k.r - k.rLength);
  }

  lemma SecondLength(der: seq<Byte>, k: Marks, n: nat, m: nat)
    requires LaidOut(der, k, n, m)
    ensures ReadLength(der, k.r + 1) == Ok(Read(m, k.sLength))
  {
    LengthReads(der, k.r + 1, k.sLength, m);
  }

  lemma MarksAreRead(der: seq<Byte>, k: Marks, n: nat, m: nat)
    requires LaidOut(der, k, n, m)
    ensures ReadAt(der, k, n, m)
  {
    HeaderReads(der, k, n, m);
    FirstLength(der, k, n, m);
    SecondLength(der, k, n, m);
  }

  predicate InOrder(der: seq<Byte>, k: Marks, m: nat) {
    1 <= k.header < k.rLength <= k.r < k.sLength <= k.sLength + m <= |der|
  }

  function PartsAt(der: seq<Byte>, k: Marks, m: nat): Parts
    requires InOrder(der, k, m)
  {
    Parts(der[1..k.header], der[k.header + 1..k.rLength], der[k.rLength..k.r],
          der[k.r + 1..k.sLength], der[k.sLength..k.sLength + m])
  }

  lemma MarksReadAt(der: seq<Byte>, k: Marks, n: nat, m: nat)
    requires ReadAt(der, k, n, m)
    ensures MarksRead(der) == (k, k.sLength + m) && LengthAt(der, 1).value == n
  {
  }

  lemma WholeSlice(data: seq<Byte>, a: nat, b: nat)
    requires a <= b <= |data|
    ensures Slice(data, a, b) == data[a..b]
  {
  }

  lemma WholeSlices(der: seq<Byte>, k: Marks, m: nat)
    requires InOrder(der, k, m)
    ensures SlicesAt(der, k, k.sLength + m) == PartsAt(der, k, m)
  {
    WholeSlice(der, 1, k.header);
    WholeSlice(der, k.header + 1, k.rLength);
    WholeSlice(der, k.rLength, k.r);
    WholeSlice(der, k.r + 1, k.sLength);
    WholeSlice(der, k.sLength, k.sLength + m);
  }

  lemma PartsReadAt(der: seq<Byte>, k: Marks, n: nat, m: nat)
    requires InOrder(der, k, m) && ReadAt(der, k, n, m)
    ensures PartsRead(der) == PartsAt(der, k, m)
  {
    MarksReadAt(der, k, n, m);
    WholeSlices(der, k, m);
  }

  lemma FramingPartsAt(enc: seq<Byte>, n: nat, p: Parts, after: seq<Byte>)
    requires IsFraming(enc, n, p.header, p.rLength, p.r, p.sLength, p.s)
    ensures var k := MarksOf(p.header, p.rLength, p.r, p.sLength);
            InOrder(enc + after, k, |p.s|) && PartsAt(enc + after, k, |p.s|) == p && |enc| == k.sLength + |p.s|
  {
    PartsLaidOut(enc + after, p.header, p.rLength, p.r, p.sLength, p.s, after);
  }

  lemma FramingReadAt(enc: seq<Byte>, n: nat, p: Parts, after: seq<Byte>)
    requires IsFraming(enc, n, p.header, p.rLength, p.r, p.sLength, p.s)
    ensures ReadAt(enc + after, MarksOf(p.header, p.rLength, p.r, p.sLength), n, |p.s|)
  {
    FramingLaidOut(enc, n, p.header, p.rLength, p.r, p.sLength, p.s, after);
    MarksAreRead(enc + after, MarksOf(p.header, p.rLength, p.r, p.sLength), n, |p.s|);
  }

  /** The decoder reads these parts, and the second integer ends at end. */
  ghost predicate Reads(der: seq<Byte>, n: nat, p: Parts, end: nat) {
    PartsRead(der) == p && LengthAt(der, 1).value == n && MarksRead(der).1 == end
  }

  lemma ReadsAt(der: seq<Byte>, k: Marks, n: nat, p: Parts)
    requires InOrder(der, k, |p.s|) && ReadAt(der, k, n, |p.s|) && PartsAt(der, k, |p.s|) == p
    ensures Reads(der, n, p, k.sLength + |p.s|)
  {
    PartsReadAt(der, k, n, |p.s|);
    MarksReadAt(der, k, n, |p.s|);
  }

  /** The parts of a framing are those that the decoder reads, and there are no others. */
  lemma FramingIsRead(enc: seq<Byte>, n: nat, p: Parts, after: seq<Byte>)
    requires IsFraming(enc, n, p.header, p.rLength, p.r, p.sLength, p.s)
    ensures Reads(enc + after, n, p, |enc|)
  {
    FramingReadAt(enc, n, p, after);
    FramingPartsAt(enc, n, p, after);
    ReadsAt(enc + after, MarksOf(p.header, p.rLength, p.r, p.sLength), n, p);
  }

  // ----- accepted input -----

  /** The checks that the decoder does not make on the parts. */
  predicate AreProper(p: Parts) {
    && p.header != [] && p.rLength != [] && p.sLength != []
    && IsFirstLengthOctet(p.header[0]) && IsFirstLengthOctet(p.rLength[0]) && IsFirstLengthOctet(p.sLength[0])
    && IsIntegerContents(p.r) && IsIntegerContents(p.s)
  }

  /** Nor does it compare the sequence's length with what follows. */
  predicate Proper(der: seq<Byte>) {
    AreProper(PartsRead(der)) && LengthAt(der, 1).value == HeaderValue(PartsRead(der))
  }

  /** Accepted, with all of the second integer. */
  predicate Complete(der: seq<Byte>) { Decode(der).Ok? && MarksRead(der).1 <= |der| }

  lemma DecodedReads(der: seq<Byte>)
    requires Decode(der).Ok?
    ensures ReadLength(der, 1).Ok?
    ensures var first := ReadInteger(der, ReadLength(der, 1).value.next, InvalidR);
            first.Ok? && ReadInteger(der, first.value.next, InvalidS).Ok?
  {
  }

  /** Where an integer ends whose tag is at the offset. */
  function EndAfter(der: seq<Byte>, offset: nat): nat {
    LengthAt(der, offset + 1).next + LengthAt(der, offset + 1).value
  }

  lemma IntegerEnds(data: seq<Byte>, offset: nat, error: Error)
    requires ReadInteger(data, offset, error).Ok?
    ensures ReadInteger(data, offset, error).value.next == EndAfter(data, offset)
  {
  }

  lemma FirstEnd(der: seq<Byte>)
    requires Decode(der).Ok?
    ensures Ends(der).0 == EndAfter(der, LengthAt(der, 1).next)
  {
    DecodedReads(der);
    IntegerEnds(der, ReadLength(der, 1).value.next, InvalidR);
  }

  lemma SecondEnd(der: seq<Byte>)
    requires Decode(der).Ok?
    ensures Ends(der).1 == EndAfter(der, Ends(der).0)
  {
    DecodedReads(der);
    IntegerEnds(der, Ends(der).0, InvalidS);
  }

  lemma MarkedEnd(der: seq<Byte>, first: nat)
    requires first == EndAfter(der, LengthAt(der, 1).next)
    ensures MarksRead(der).1 == EndAfter(der, first)
  {
  }

  lemma EndsAreMarked(der: seq<Byte>)
    requires Decode(der).Ok?
    ensures Ends(der).1 == MarksRead(der).1
  {
    FirstEnd(der);
    SecondEnd(der);
    MarkedEnd(der, Ends(der).0);
  }

  lemma CompleteIsFraming(der: seq<Byte>) returns (n: nat, p: Parts)
    requires Complete(der)
    ensures IsFraming(der[..MarksRead(der).1], n, p.header, p.rLength, p.r, p.sLength, p.s)
  {
    EndsAreMarked(der);
    var header, rLength, r, sLength, s;
    n, header, rLength, r, sLength, s := AcceptedIsFraming(der);
    p := Parts(header, rLength, r, sLength, s);
  }

  lemma CompleteIsRead(der: seq<Byte>) returns (n: nat, p: Parts)
    requires Complete(der)
    ensures var end := MarksRead(der).1;
            IsFraming(der[..end], n, p.header, p.rLength, p.r, p.sLength, p.s) && Reads(der, n, p, end)
  {
    var end := MarksRead(der).1;
    n, p := CompleteIsFraming(der);
    FramingIsRead(der[..end], n, p, der[end..]);
    assert der[..end] + der[end..] == der;
  }

  lemma ProperFramingIsEncoding(enc: seq<Byte>, n: nat, p: Parts)
    requires IsFraming(enc, n, p.header, p.rLength, p.r, p.sLength, p.s) && n == HeaderValue(p) && AreProper(p)
    ensures IsEncoding(enc, p)
  {
  }

  lemma ProperParts(der: seq<Byte>, n: nat, p: Parts, end: nat)
    requires Reads(der, n, p, end)
    ensures Proper(der) <==> n == HeaderValue(p) && AreProper(p)
  {
  }

  lemma EncodingIsProper(enc: seq<Byte>, p: Parts, after: seq<Byte>)
    requires IsEncoding(enc, p)
    ensures Complete(enc + after) && Proper(enc + after)
  {
    var n := HeaderValue(p);
    EncodingIsFraming(enc, p);
    DecodesFramings(enc, n, p.header, p.rLength, p.r, p.sLength, p.s, after);
    FramingIsRead(enc, n, p, after);
    ProperParts(enc + after, n, p, |enc|);
  }

  /**
   Input begins with an encoding exactly if it is accepted, holds all of its second integer, and passes
   the checks that the decoder does not make.
   */
  lemma BeginsWithEncodingIff(der: seq<Byte>)
    ensures BeginsWithEncoding(der) <==> Complete(der) && Proper(der)
  {
    if Complete(der) && Proper(der) {
      ProperBegins(der);
    }
    if k, p :| 0 <= k <= |der| && IsEncoding(der[..k], p) {
      assert der[..k] + der[k..] == der;
      EncodingIsProper(der[..k], p, der[k..]);
    }
  }

  lemma ProperBegins(der: seq<Byte>)
    requires Complete(der) && Proper(der)
    ensures BeginsWithEncoding(der)
  {
    var end := MarksRead(der).1;
    var n, p := CompleteIsRead(der);
    ProperParts(der, n, p, end);
    ProperFramingIsEncoding(der[..end], n, p);
  }

  /** What the decoder makes of accepted input is what its contents are worth exactly if neither is negative. */
  lemma AcceptedValuesIff(der: seq<Byte>)
    requires Complete(der) && PartsRead(der).r != [] && PartsRead(der).s != []
    ensures var sig, p := Decode(der).value, PartsRead(der);
            sig.r == Value(p.r) && sig.s == Value(p.s) <==> p.r[0] < 0x80 && p.s[0] < 0x80
  {
    CompleteDecodes(der);
    ValueIsUnsignedIff(PartsRead(der).r);
    ValueIsUnsignedIff(PartsRead(der).s);
  }

  lemma CompleteDecodes(der: seq<Byte>)
    requires Complete(der)
    ensures Decode(der) == Ok(Signature(FromBytes(PartsRead(der).r), FromBytes(PartsRead(der).s)))
  {
    var end := MarksRead(der).1;
    var n, p := CompleteIsRead(der);
    FramingDecodes(der, end, n, p);
  }

  lemma FramingDecodes(der: seq<Byte>, end: nat, n: nat, p: Parts)
    requires end <= |der| && IsFraming(der[..end], n, p.header, p.rLength, p.r, p.sLength, p.s)
    ensures Decode(der) == Ok(Signature(FromBytes(p.r), FromBytes(p.s)))
  {
    assert der == der[..end] + der[end..];
    DecodesFramings(der[..end], n, p.header, p.rLength, p.r, p.sLength, p.s, der[end..]);
  }

  lemma FramingBeginsIff(enc: seq<Byte>, n: nat, p: Parts)
    requires IsFraming(enc, n, p.header, p.rLength, p.r, p.sLength, p.s)
    ensures Decode(enc) == Ok(Signature(FromBytes(p.r), FromBytes(p.s)))
    ensures BeginsWithEncoding(enc) <==> n == HeaderValue(p) && AreProper(p)
  {
    assert enc + [] == enc;
    DecodesFramings(enc, n, p.header, p.rLength, p.r, p.sLength, p.s, []);
    FramingIsRead(enc, n, p, []);
    ProperParts(enc, n, p, |enc|);
    BeginsWithEncodingIff(enc);
  }

  // ----- input that is accepted, and no encoding -----

  lemma TwoBytes(a: Byte, b: Byte)
    ensures FromBytes([]) == 0 && FromBytes([a]) == a && FromBytes([a, b]) == a * 256 + b
  {
    OneMoreByte([], a);
    OneMoreByte([a], b);
    assert [] + [a] == [a] && [a] + [b] == [a, b];
  }

  /** The indefinite form is taken for no octets at all. */
  lemma IndefiniteFormAccepted()
    ensures var der := [0x30, 0x80, 0x02, 0x80, 0x02, 0x80];
            Decode(der) == Ok(Signature(0, 0)) && !BeginsWithEncoding(der)
  {
    TwoBytes(0, 0);
    var none: seq<Byte> := [];
    assert [0x80 as Byte][1..] == none;
    assert [0x30, 0x80, 0x02, 0x80, 0x02, 0x80] == Sequence([0x80], Integer([0x80], none), Integer([0x80], none));
    FramingBeginsIff([0x30, 0x80, 0x02, 0x80, 0x02, 0x80], 0, Parts([0x80], [0x80], none, [0x80], none));
  }

  lemma EmptyContentsAccepted()
    ensures var der := [0x30, 0x04, 0x02, 0x00, 0x02, 0x00];
            Decode(der) == Ok(Signature(0, 0)) && !BeginsWithEncoding(der)
  {
    TwoBytes(0, 0);
    var none: seq<Byte> := [];
    assert [0x30, 0x04, 0x02, 0x00, 0x02, 0x00] == Sequence([0x04], Integer([0x00], none), Integer([0x00], none));
    FramingBeginsIff([0x30, 0x04, 0x02, 0x00, 0x02, 0x00], 4, Parts([0x04], [0x00], none, [0x00], none));
  }

  lemma WrongSequenceLengthAccepted()
    ensures var der := [0x30, 0x00, 0x02, 0x01, 0x05, 0x02, 0x01, 0x07];
            Decode(der) == Ok(Signature(5, 7)) && !BeginsWithEncoding(der)
  {
    TwoBytes(5, 0);
    TwoBytes(7, 0);
    var der := [0x30, 0x00, 0x02, 0x01, 0x05, 0x02, 0x01, 0x07];
    assert der == Sequence([0x00], Integer([0x01], [0x05]), Integer([0x01], [0x07]));
    FramingBeginsIff(der, 0, Parts([0x00], [0x01], [0x05], [0x01], [0x07]));
  }

  lemma PaddedContentsAccepted()
    ensures var der := [0x30, 0x07, 0x02, 0x02, 0x00, 0x05, 0x02, 0x01, 0x07];
            Decode(der) == Ok(Signature(5, 7)) && !BeginsWithEncoding(der)
  {
    TwoBytes(0, 5);
    TwoBytes(7, 0);
    var der := [0x30, 0x07, 0x02, 0x02, 0x00, 0x05, 0x02, 0x01, 0x07];
    assert der == Sequence([0x07], Integer([0x02], [0x00, 0x05]), Integer([0x01], [0x07]));
    FramingBeginsIff(der, 7, Parts([0x07], [0x02], [0x00, 0x05], [0x01], [0x07]));
  }

  /** An encoding of (-1, 1) comes out as (255, 1). */
  lemma NegativeReadUnsigned()
    ensures var der := [0x30, 0x06, 0x02, 0x01, 0xFF, 0x02, 0x01, 0x01];
            && IsEncoding(der, Parts([0x06], [0x01], [0xFF], [0x01], [0x01]))
            && Value([0xFF]) == -1 && Value([0x01]) == 1 && Decode(der) == Ok(Signature(255, 1))
  {
    TwoBytes(255, 0);
    TwoBytes(1, 0);
    var der := [0x30, 0x06, 0x02, 0x01, 0xFF, 0x02, 0x01, 0x01];
    assert der == Sequence([0x06], Integer([0x01], [0xFF]), Integer([0x01], [0x01]));
    FramingBeginsIff(der, 6, Parts([0x06], [0x01], [0xFF], [0x01], [0x01]));
  }

  // ----- the reference encoder -----

  /** Section 10.1: the length octets are as few as can be. */
  lemma {:induction false} FewestOctets(n: nat, s: seq<Byte>)
    requires FromBytes(s) == n && n > 0
    ensures |MinimalBytes(n)| <= |s|
    decreases |s|
  {
    var front := s[..|s| - 1];
    assert s == front + [s[|s| - 1]];
    OneMoreByte(front, s[|s| - 1]);
    if n >= 256 {
      FewestOctets(n / 256, front);
    }
  }

  lemma LengthIsShortest(n: nat, enc: seq<Byte>)
    requires HasLength(n) && IsLength(enc, n)
    ensures IsLength(Length(n), n) && |Length(n)| <= |enc|
  {
    LengthIsLength(n);
    if n >= 0x80 {
      FewestOctets(n, enc[1..]);
    }
  }

  lemma LengthIsLength(n: nat)
    requires HasLength(n)
    ensures IsLength(Length(n), n)
  {
    LengthReadsBack(n);
    if n >= 0x80 {
      assert MinimalBytes(n) != [];
    }
  }

  /** Two's complement with a zero in front of a leading bit is the number, in contents that X.690 allows. */
  lemma ContentsAreContents(n: nat)
    ensures IsIntegerContents(Contents(n)) && Value(Contents(n)) == n
  {
    ContentsAreDer(n);
    ValueIsUnsignedIff(Contents(n));
  }

  function EncodedParts(r: nat, s: nat): Parts
    requires Encodable(r, s)
  {
    var first, second := Integer(Length(|Contents(r)|), Contents(r)), Integer(Length(|Contents(s)|), Contents(s));
    Parts(Length(|first + second|), Length(|Contents(r)|), Contents(r), Length(|Contents(s)|), Contents(s))
  }

  /** What DER encodes is an encoding of the two numbers, with lengths in the fewest octets, and decodes to them. */
  lemma EncodeIsEncoding(r: nat, s: nat)
    requires Encodable(r, s)
    ensures IsEncoding(Encode(r, s), EncodedParts(r, s))
    ensures Value(EncodedParts(r, s).r) == r && Value(EncodedParts(r, s).s) == s
    ensures forall after :: Decode(Encode(r, s) + after) == Ok(Signature(r, s))
  {
    var first, second := Integer(Length(|Contents(r)|), Contents(r)), Integer(Length(|Contents(s)|), Contents(s));
    LengthIsLength(|Contents(r)|);
    LengthIsLength(|Contents(s)|);
    LengthIsLength(|first + second|);
    ContentsAreContents(r);
    ContentsAreContents(s);
    ContentsAreDer(r);
    ContentsAreDer(s);
    forall after ensures Decode(Encode(r, s) + after) == Ok(Signature(r, s)) {
      DecodesEncodingsIff(Encode(r, s), EncodedParts(r, s), after);
    }
  }
}
