/**
 The decoding of DER signatures and their 64-byte form: deploy/docker/all-in-one/generate_auth_keys.py.
 What it accepts is described here in its own terms, and compared with ITU-T X.690 in DerEncoding.
 The raw form is that of section 3.4 of RFC 7518.
 */
module DerSignature {
  import opened Common

  type Byte = x: int | 0 <= x < 256

  /** What indexing past the end, and the three checks, raise. */
  datatype Error = IndexError | InvalidSequence | InvalidR | InvalidS

  /** The number that the first n bytes make, the most significant first. */
  function Number(s: seq<Byte>, n: nat): nat
    requires n <= |s|
  {
    if n == 0 then 0 else Number(s, n - 1) * 256 + s[n - 1]
  }

  /** int.from_bytes(s, "big") */
  function FromBytes(s: seq<Byte>): nat { Number(s, |s|) }

  lemma {:induction false} SameNumber(s: seq<Byte>, t: seq<Byte>, n: nat)
    requires n <= |s| && n <= |t| && s[..n] == t[..n]
    ensures Number(s, n) == Number(t, n)
  {
    if n > 0 {
      assert s[n - 1] == s[..n][n - 1] == t[..n][n - 1];
      assert s[..n - 1] == s[..n][..n - 1] == t[..n][..n - 1] == t[..n - 1];
      SameNumber(s, t, n - 1);
    }
  }

  lemma OneMoreByte(s: seq<Byte>, b: Byte)
    ensures FromBytes(s + [b]) == FromBytes(s) * 256 + b
  {
    SameNumber(s + [b], s, |s|);
  }

  /** data[lo:hi], which stops at the end of the data without complaint. */
  function Slice(data: seq<Byte>, lo: nat, hi: nat): seq<Byte> {
    if lo >= |data| || hi <= lo then []
    else if hi <= |data| then data[lo..hi]
    else data[lo..]
  }

  /** A number read, and the offset behind it. */
  datatype Read = Read(value: nat, next: nat)

  datatype Signature = Signature(r: nat, s: nat)

  /** der_read_length */
  function ReadLength(data: seq<Byte>, offset: nat): Result<Read, Error> {
    if offset >= |data| then Err(IndexError)
    else if data[offset] < 0x80 then Ok(Read(data[offset], offset + 1))
    else
      var next := offset + 1 + (data[offset] - 0x80);
      Ok(Read(FromBytes(Slice(data, offset + 1, next)), next))
  }

  function ContentsAt(data: seq<Byte>, length: Read): Read {
    Read(FromBytes(Slice(data, length.next, length.next + length.value)), length.next + length.value)
  }

  /** One INTEGER. */
  function ReadInteger(data: seq<Byte>, offset: nat, error: Error): Result<Read, Error> {
    if offset >= |data| then Err(IndexError)
    else if data[offset] != 0x02 then Err(error)
    else
      var length := ReadLength(data, offset + 1);
      if length.Err? then Err(length.error) else Ok(ContentsAt(data, length.value))
  }

  function ReadIntegers(data: seq<Byte>, offset: nat): Result<Signature, Error> {
    var r := ReadInteger(data, offset, InvalidR);
    if r.Err? then Err(r.error)
    else
      var s := ReadInteger(data, r.value.next, InvalidS);
      if s.Err? then Err(s.error) else Ok(Signature(r.value.value, s.value.value))
  }

  function Decode(der: seq<Byte>): Result<Signature, Error> {
    if der == [] then Err(IndexError)
    else if der[0] != 0x30 then Err(InvalidSequence)
    else
      var header := ReadLength(der, 1);
      if header.Err? then Err(header.error) else ReadIntegers(der, header.value.next)
  }

  /** der_read_length */
  method DerReadLength(data: seq<Byte>, start: nat) returns (result: Result<Read, Error>)
    ensures result == ReadLength(data, start)
  {
    var offset := start;
    if offset >= |data| {
      return Err(IndexError);
    }
    var first := data[offset];
    offset := offset + 1;
    if first < 0x80 {
      return Ok(Read(first, offset));
    }
    var count: nat := first % 0x80;
    assert count == first - 0x80;
    var length := FromBytes(Slice(data, offset, offset + count));
    return Ok(Read(length, offset + count));
  }

  /** The block that decode_dss_signature has for r and, with another message, for s. */
  method DerReadInteger(data: seq<Byte>, start: nat, error: Error) returns (result: Result<Read, Error>)
    ensures result == ReadInteger(data, start, error)
  {
    var offset := start;
    if offset >= |data| {
      return Err(IndexError);
    }
    if data[offset] != 0x02 {
      return Err(error);
    }
    offset := offset + 1;
    var length := DerReadLength(data, offset);
    if length.Err? {
      return Err(length.error);
    }
    IntegerFromLength(data, start, length.value, error);
    offset := length.value.next;
    var value := FromBytes(Slice(data, offset, offset + length.value.value));
    offset := offset + length.value.value;
    return Ok(Read(value, offset));
  }

  lemma DecodeFrom(der: seq<Byte>, header: Read)
    requires der != [] && der[0] == 0x30 && ReadLength(der, 1) == Ok(header)
    ensures Decode(der) == ReadIntegers(der, header.next)
  {
  }

  /** decode_dss_signature */
  method DecodeDssSignature(der: seq<Byte>) returns (result: Result<Signature, Error>)
    ensures result == Decode(der)
  {
    var offset := 0;
    if offset >= |der| {
      return Err(IndexError);
    }
    if der[offset] != 0x30 {
      return Err(InvalidSequence);
    }
    offset := offset + 1;
    var header := DerReadLength(der, offset);
    if header.Err? {
      return Err(header.error);
    }
    offset := header.value.next;
    DecodeFrom(der, header.value);
    var r := DerReadInteger(der, offset, InvalidR);
    if r.Err? {
      return Err(r.error);
    }
    offset := r.value.next;
    var s := DerReadInteger(der, offset, InvalidS);
    if s.Err? {
      return Err(s.error);
    }
    return Ok(Signature(r.value.value, s.value.value));
  }

  // ----- what the decoder can follow -----

  /**
   What it takes for a length: the short form, or as many further octets as the first one says.
   0x80 and 0xFF, which X.690 keeps for other purposes, are no exception.
   */
  ghost predicate ReadsAsLength(enc: seq<Byte>, n: nat) {
    && enc != []
    && if enc[0] < 0x80 then enc == [enc[0]] && n == enc[0]
       else |enc| == 1 + (enc[0] - 0x80) && n == FromBytes(enc[1..])
  }

  /** The tag of an INTEGER, a length and contents. */
  function Integer(length: seq<Byte>, contents: seq<Byte>): seq<Byte> { [0x02 as Byte] + length + contents }

  /** The tag of a SEQUENCE, a length and two parts. */
  function Sequence(length: seq<Byte>, r: seq<Byte>, s: seq<Byte>): seq<Byte> { [0x30 as Byte] + length + r + s }

  /** The offsets behind the header, the length and contents of r, and the length of s. */
  datatype Marks = Marks(header: nat, rLength: nat, r: nat, sLength: nat)

  /** The second integer is said to be m bytes long; it need not be all there. */
  ghost predicate LaidOut(der: seq<Byte>, k: Marks, n: nat, m: nat) {
    && 1 <= k.header < k.rLength <= k.r < k.sLength <= |der|
    && der[0] == 0x30 && ReadsAsLength(der[1..k.header], n)
    && der[k.header] == 0x02 && ReadsAsLength(der[k.header + 1..k.rLength], k.r - k.rLength)
    && der[k.r] == 0x02 && ReadsAsLength(der[k.r + 1..k.sLength], m)
  }

  lemma LengthReads(data: seq<Byte>, a: nat, b: nat, n: nat)
    requires a <= b <= |data| && ReadsAsLength(data[a..b], n)
    ensures ReadLength(data, a) == Ok(Read(n, b))
  {
    assert data[a..b][0] == data[a];
    assert data[a..b][1..] == data[a + 1..b];
    if data[a] >= 0x80 && b == a + 1 {
      assert data[a..b][1..] == [];
    }
  }

  /** Where a tag and a length are read, so is the integer. */
  lemma IntegerFromLength(data: seq<Byte>, a: nat, length: Read, error: Error)
    requires a < |data| && data[a] == 0x02 && ReadLength(data, a + 1) == Ok(length)
    ensures ReadInteger(data, a, error) == Ok(ContentsAt(data, length))
  {
  }

  lemma IntegerReads(data: seq<Byte>, a: nat, b: nat, m: nat, error: Error)
    requires a < b <= |data| && data[a] == 0x02 && ReadsAsLength(data[a + 1..b], m)
    ensures ReadInteger(data, a, error) == Ok(ContentsAt(data, Read(m, b)))
  {
    LengthReads(data, a + 1, b, m);
    IntegerFromLength(data, a, Read(m, b), error);
  }

  /** The value at an offset, of which the data may hold only a part. */
  function ValueAt(data: seq<Byte>, start: nat, length: nat): nat { FromBytes(Slice(data, start, start + length)) }

  lemma FirstReads(der: seq<Byte>, k: Marks, n: nat, m: nat)
    requires LaidOut(der, k, n, m)
    ensures ReadInteger(der, k.header, InvalidR) == Ok(Read(FromBytes(der[k.rLength..k.r]), k.r))
  {
    IntegerReads(der, k.header, k.rLength, k.r - k.rLength, InvalidR);
    WholeContents(der, k.rLength, k.r);
  }

  lemma WholeContents(data: seq<Byte>, a: nat, b: nat)
    requires a <= b <= |data|
    ensures ContentsAt(data, Read(b - a, a)) == Read(FromBytes(data[a..b]), b)
  {
    assert Slice(data, a, b) == data[a..b];
  }

  lemma SecondReads(der: seq<Byte>, k: Marks, n: nat, m: nat)
    requires LaidOut(der, k, n, m)
    ensures ReadInteger(der, k.r, InvalidS) == Ok(Read(ValueAt(der, k.sLength, m), k.sLength + m))
  {
    IntegerReads(der, k.r, k.sLength, m, InvalidS);
  }

  lemma HeaderReads(der: seq<Byte>, k: Marks, n: nat, m: nat)
    requires LaidOut(der, k, n, m)
    ensures der != [] && der[0] == 0x30 && ReadLength(der, 1) == Ok(Read(n, k.header))
  {
    LengthReads(der, 1, k.header, n);
  }

  lemma ThreeReads(der: seq<Byte>, header: Read, r: Read, s: Read)
    requires der != [] && der[0] == 0x30 && ReadLength(der, 1) == Ok(header)
    requires ReadInteger(der, header.next, InvalidR) == Ok(r) && ReadInteger(der, r.next, InvalidS) == Ok(s)
    ensures Decode(der) == Ok(Signature(r.value, s.value))
  {
  }

  /** The decoder reads what is laid out, and takes of the second integer what there is. */
  lemma LaidOutDecodes(der: seq<Byte>, k: Marks, n: nat, m: nat)
    requires LaidOut(der, k, n, m)
    ensures Decode(der) == Ok(Signature(FromBytes(der[k.rLength..k.r]), ValueAt(der, k.sLength, m)))
  {
    HeaderReads(der, k, n, m);
    FirstReads(der, k, n, m);
    SecondReads(der, k, n, m);
    ThreeReads(der, Read(n, k.header), Read(FromBytes(der[k.rLength..k.r]), k.r),
               Read(ValueAt(der, k.sLength, m), k.sLength + m));
  }

  lemma PrefixSlice(data: seq<Byte>, n: nat, a: nat, b: nat)
    requires a <= b <= n <= |data|
    ensures data[..n][a..b] == data[a..b]
  {
  }

  lemma PrefixLaidOut(der: seq<Byte>, k: Marks, n: nat, m: nat, cut: nat)
    requires LaidOut(der, k, n, m) && k.sLength <= cut <= |der|
    ensures LaidOut(der[..cut], k, n, m)
  {
    PrefixSlice(der, cut, 1, k.header);
    PrefixSlice(der, cut, k.header + 1, k.rLength);
    PrefixSlice(der, cut, k.r + 1, k.sLength);
  }

  /** Tags and lengths that the decoder can follow. It does not look at the value of the sequence's length, n. */
  ghost predicate IsFraming(enc: seq<Byte>, n: nat, header: seq<Byte>, rLength: seq<Byte>, r: seq<Byte>,
                             sLength: seq<Byte>, s: seq<Byte>) {
    && ReadsAsLength(header, n) && ReadsAsLength(rLength, |r|) && ReadsAsLength(sLength, |s|)
    && enc == Sequence(header, Integer(rLength, r), Integer(sLength, s))
  }

  function MarksOf(header: seq<Byte>, rLength: seq<Byte>, r: seq<Byte>, sLength: seq<Byte>): Marks {
    var first := 2 + |header| + |rLength|;
    Marks(1 + |header|, first, first + |r|, first + |r| + 1 + |sLength|)
  }

  lemma IntegerAt(before: seq<Byte>, length: seq<Byte>, contents: seq<Byte>, after: seq<Byte>)
    ensures var data, a, b := before + Integer(length, contents) + after, |before|, |before| + 1 + |length|;
            data[a] == 0x02 && data[a + 1..b] == length && data[b..b + |contents|] == contents
  {
  }

  lemma HeaderAt(header: seq<Byte>, rest: seq<Byte>)
    ensures var data := [0x30 as Byte] + header + rest; data[0] == 0x30 && data[1..1 + |header|] == header
  {
  }

  lemma Regrouped(header: seq<Byte>, first: seq<Byte>, second: seq<Byte>, after: seq<Byte>)
    ensures Sequence(header, first, second) + after == [0x30 as Byte] + header + (first + second + after)
    ensures Sequence(header, first, second) + after == [0x30 as Byte] + header + first + (second + after)
    ensures Sequence(header, first, second) + after == ([0x30 as Byte] + header + first) + second + after
  {
  }

  lemma PartsLaidOut(der: seq<Byte>, header: seq<Byte>, rLength: seq<Byte>, r: seq<Byte>, sLength: seq<Byte>,
                     s: seq<Byte>, after: seq<Byte>)
    requires der == Sequence(header, Integer(rLength, r), Integer(sLength, s)) + after
    ensures var k := MarksOf(header, rLength, r, sLength);
            && |der| >= k.sLength + |s| && der[0] == 0x30 && der[1..k.header] == header
            && der[k.header] == 0x02 && der[k.header + 1..k.rLength] == rLength && der[k.rLength..k.r] == r
            && der[k.r] == 0x02 && der[k.r + 1..k.sLength] == sLength && der[k.sLength..k.sLength + |s|] == s
  {
    var first, second := Integer(rLength, r), Integer(sLength, s);
    Regrouped(header, first, second, after);
    HeaderAt(header, first + second + after);
    IntegerAt([0x30] + header, rLength, r, second + after);
    IntegerAt([0x30] + header + first, sLength, s, after);
  }

  lemma FramingLaidOut(
      enc: seq<Byte>, n: nat, header: seq<Byte>, rLength: seq<Byte>, r: seq<Byte>, sLength: seq<Byte>, s: seq<Byte>,
      after: seq<Byte>)
    requires IsFraming(enc, n, header, rLength, r, sLength, s)
    ensures var k, der := MarksOf(header, rLength, r, sLength), enc + after;
            && LaidOut(der, k, n, |s|) && der[k.rLength..k.r] == r
            && k.sLength + |s| == |enc| && der[k.sLength..|enc|] == s
  {
    PartsLaidOut(enc + after, header, rLength, r, sLength, s, after);
  }

  /** Whatever follows, the decoder returns the values of the contents, read without a sign. */
  lemma DecodesFramings(
      enc: seq<Byte>, n: nat, header: seq<Byte>, rLength: seq<Byte>, r: seq<Byte>, sLength: seq<Byte>, s: seq<Byte>,
      after: seq<Byte>)
    requires IsFraming(enc, n, header, rLength, r, sLength, s)
    ensures Decode(enc + after) == Ok(Signature(FromBytes(r), FromBytes(s)))
  {
    var k, der := MarksOf(header, rLength, r, sLength), enc + after;
    FramingLaidOut(enc, n, header, rLength, r, sLength, s, after);
    LaidOutDecodes(der, k, n, |s|);
    assert Slice(der, k.sLength, |enc|) == s;
  }

  // ----- the DER encoder -----

  function MinimalBytes(n: nat): (r: seq<Byte>)
    ensures r != []
  {
    if n < 256 then [n] else MinimalBytes(n / 256) + [n % 256]
  }

  lemma {:induction false} MinimalBytesAreBytes(n: nat)
    ensures FromBytes(MinimalBytes(n)) == n
  {
    if n < 256 {
      OneMoreByte([], n);
      assert [] + [n as Byte] == [n];
    } else {
      MinimalBytesAreBytes(n / 256);
      OneMoreByte(MinimalBytes(n / 256), n % 256);
    }
  }

  lemma {:induction false} LeadingZero(s: seq<Byte>, n: nat)
    requires n <= |s|
    ensures Number([0] + s, n + 1) == Number(s, n)
  {
    if n > 0 {
      LeadingZero(s, n - 1);
    }
  }

  /** Two's complement, with a zero in front of a leading bit. */
  function Contents(n: nat): seq<Byte> {
    var b := MinimalBytes(n);
    if b[0] >= 0x80 then [0] + b else b
  }

  lemma {:induction false} NoLeadingZero(n: nat)
    requires n > 0
    ensures MinimalBytes(n)[0] != 0
  {
    if n >= 256 {
      NoLeadingZero(n / 256);
    }
  }

  /** Not negative, and as short as section 8.3.2 of X.690 asks for. */
  lemma ContentsAreDer(n: nat)
    ensures var c := Contents(n);
            FromBytes(c) == n && c[0] < 0x80 && (|c| > 1 && c[0] == 0 ==> c[1] >= 0x80)
  {
    MinimalBytesAreBytes(n);
    LeadingZero(MinimalBytes(n), |MinimalBytes(n)|);
    if n > 0 {
      NoLeadingZero(n);
    }
  }

  /** The number of length bytes fits the initial one; X.690 has no other lengths. */
  predicate HasLength(n: nat) { |MinimalBytes(n)| <= 126 }

  function Length(n: nat): seq<Byte>
    requires HasLength(n)
  {
    if n < 0x80 then [n] else [0x80 + |MinimalBytes(n)|] + MinimalBytes(n)
  }

  lemma LengthReadsBack(n: nat)
    requires HasLength(n)
    ensures ReadsAsLength(Length(n), n)
  {
    MinimalBytesAreBytes(n);
    if n >= 0x80 {
      assert Length(n)[1..] == MinimalBytes(n);
    }
  }

  predicate Encodable(r: nat, s: nat) {
    && HasLength(|Contents(r)|) && HasLength(|Contents(s)|)
    && HasLength(|Integer(Length(|Contents(r)|), Contents(r)) + Integer(Length(|Contents(s)|), Contents(s))|)
  }

  function Encode(r: nat, s: nat): seq<Byte>
    requires Encodable(r, s)
  {
    var first, second := Integer(Length(|Contents(r)|), Contents(r)), Integer(Length(|Contents(s)|), Contents(s));
    Sequence(Length(|first + second|), first, second)
  }

  /** Decoding what DER encodes returns it, for numbers of any length that DER has an encoding for. */
  lemma DerRoundTrip(r: nat, s: nat)
    requires Encodable(r, s)
    ensures Decode(Encode(r, s)) == Ok(Signature(r, s))
  {
    var first, second := Integer(Length(|Contents(r)|), Contents(r)), Integer(Length(|Contents(s)|), Contents(s));
    LengthReadsBack(|Contents(r)|);
    LengthReadsBack(|Contents(s)|);
    LengthReadsBack(|first + second|);
    DecodesFramings(Encode(r, s), |first + second|, Length(|first + second|), Length(|Contents(r)|), Contents(r),
                     Length(|Contents(s)|), Contents(s), []);
    ContentsAreDer(r);
    ContentsAreDer(s);
    assert Encode(r, s) + [] == Encode(r, s);
  }

  // ----- what the decoder accepts -----

  lemma LengthMeans(data: seq<Byte>, offset: nat)
    requires ReadLength(data, offset).Ok? && ReadLength(data, offset).value.next <= |data|
    ensures var n, next := ReadLength(data, offset).value.value, ReadLength(data, offset).value.next;
            offset < next && ReadsAsLength(data[offset..next], n)
  {
    var n, next := ReadLength(data, offset).value.value, ReadLength(data, offset).value.next;
    assert data[offset..next][1..] == data[offset + 1..next];
    if data[offset] >= 0x80 && next == offset + 1 {
      assert data[offset..next][1..] == [];
    }
  }

  lemma Chain(data: seq<Byte>, a: nat, b: nat, c: nat)
    requires a <= b <= c <= |data|
    ensures data[a..b] + data[b..c] == data[a..c]
  {
  }

  /** What an accepted integer is made of. */
  ghost predicate ReadsAsInteger(enc: seq<Byte>, length: seq<Byte>, contents: seq<Byte>, v: nat) {
    enc == Integer(length, contents) && ReadsAsLength(length, |contents|) && v == FromBytes(contents)
  }

  lemma IntegerMeans(data: seq<Byte>, offset: nat, error: Error) returns (length: seq<Byte>, contents: seq<Byte>)
    requires ReadInteger(data, offset, error).Ok? && ReadInteger(data, offset, error).value.next <= |data|
    ensures var v, next := ReadInteger(data, offset, error).value.value, ReadInteger(data, offset, error).value.next;
            offset < next && ReadsAsInteger(data[offset..next], length, contents, v)
  {
    var next := ReadInteger(data, offset, error).value.next;
    var start := ReadLength(data, offset + 1).value.next;
    LengthMeans(data, offset + 1);
    length, contents := data[offset + 1..start], data[start..next];
    assert [data[offset]] == data[offset..offset + 1];
    Chain(data, offset, offset + 1, start);
    Chain(data, offset, start, next);
    assert Slice(data, start, next) == contents;
  }

  /** The offsets behind the first and the second integer. */
  function Ends(der: seq<Byte>): (nat, nat)
    requires Decode(der).Ok?
  {
    var first := ReadInteger(der, ReadLength(der, 1).value.next, InvalidR).value.next;
    (first, ReadInteger(der, first, InvalidS).value.next)
  }

  lemma SequenceIsWhole(der: seq<Byte>, a: nat, b: nat, c: nat)
    requires 1 <= a <= b <= c <= |der| && der[0] == 0x30
    ensures Sequence(der[1..a], der[a..b], der[b..c]) == der[..c]
  {
    assert [der[0]] == der[..1];
    Chain(der, 0, 1, a);
    Chain(der, 0, a, b);
    Chain(der, 0, b, c);
  }

  /** Input that is accepted and that holds all of its second integer begins with a framing of the result. */
  lemma AcceptedIsFraming(der: seq<Byte>)
    returns (n: nat, header: seq<Byte>, rLength: seq<Byte>, r: seq<Byte>, sLength: seq<Byte>, s: seq<Byte>)
    requires Decode(der).Ok? && Ends(der).1 <= |der|
    ensures IsFraming(der[..Ends(der).1], n, header, rLength, r, sLength, s)
    ensures Decode(der) == Ok(Signature(FromBytes(r), FromBytes(s)))
  {
    var start, ends := ReadLength(der, 1).value.next, Ends(der);
    AcceptedOffsets(der);
    n := ReadLength(der, 1).value.value;
    LengthMeans(der, 1);
    header := der[1..start];
    rLength, r := IntegerMeans(der, start, InvalidR);
    sLength, s := IntegerMeans(der, ends.0, InvalidS);
    SequenceIsWhole(der, start, ends.0, ends.1);
  }

  // ----- truncated input -----

  lemma PrefixLength(data: seq<Byte>, n: nat, offset: nat)
    requires offset < n <= |data|
    ensures var whole, part := ReadLength(data, offset), ReadLength(data[..n], offset);
            && part.Ok? && part.value.next == whole.value.next
            && (whole.value.next <= n ==> part == whole)
  {
    var next := ReadLength(data, offset).value.next;
    if data[offset] >= 0x80 && next <= n {
      assert data[..n][offset + 1..next] == data[offset + 1..next];
    }
  }

  lemma PrefixContents(data: seq<Byte>, n: nat, length: Read)
    requires n <= |data| && length.next + length.value <= n
    ensures ContentsAt(data[..n], length) == ContentsAt(data, length)
  {
    if length.value > 0 {
      assert data[..n][length.next..length.next + length.value] == data[length.next..length.next + length.value];
    }
  }

  lemma PrefixTooShort(data: seq<Byte>, n: nat, offset: nat, error: Error)
    requires offset <= n <= |data| && n < offset + 2
    ensures ReadInteger(data[..n], offset, error).Err?
  {
  }

  lemma IntegerHasLength(data: seq<Byte>, offset: nat, error: Error)
    requires ReadInteger(data, offset, error).Ok?
    ensures offset < |data| && data[offset] == 0x02 && ReadLength(data, offset + 1).Ok?
    ensures ReadInteger(data, offset, error) == Ok(ContentsAt(data, ReadLength(data, offset + 1).value))
  {
  }

  lemma PrefixReads(data: seq<Byte>, n: nat, offset: nat, error: Error) returns (whole: Read, part: Read)
    requires offset + 2 <= n <= |data| && ReadInteger(data, offset, error).Ok?
    ensures part.next == whole.next && (whole.next <= n ==> part == whole)
    ensures ReadInteger(data, offset, error) == Ok(ContentsAt(data, whole))
    ensures ReadInteger(data[..n], offset, error) == Ok(ContentsAt(data[..n], part))
  {
    IntegerHasLength(data, offset, error);
    PrefixLength(data, n, offset + 1);
    whole, part := ReadLength(data, offset + 1).value, ReadLength(data[..n], offset + 1).value;
    IntegerFromLength(data[..n], offset, part, error);
  }

  lemma PrefixContentsIff(data: seq<Byte>, n: nat, whole: Read, part: Read)
    requires n <= |data| && part.next == whole.next && (whole.next <= n ==> part == whole)
    ensures ContentsAt(data, whole).next > n ==> ContentsAt(data[..n], part).next >= n
    ensures ContentsAt(data, whole).next <= n ==> ContentsAt(data[..n], part) == ContentsAt(data, whole)
  {
    if whole.next + whole.value <= n {
      PrefixContents(data, n, whole);
    }
  }

  /** An integer cut after its first length byte is read all the same, and leaves the offset past the end. */
  lemma PrefixInteger(data: seq<Byte>, n: nat, offset: nat, error: Error)
    requires offset <= n <= |data| && ReadInteger(data, offset, error).Ok?
    ensures var whole, part := ReadInteger(data, offset, error), ReadInteger(data[..n], offset, error);
            && (part.Ok? <==> n >= offset + 2)
            && (n >= offset + 2 && whole.value.next > n ==> part.value.next >= n)
            && (n >= offset + 2 && whole.value.next <= n ==> part == whole)
  {
    if n < offset + 2 {
      PrefixTooShort(data, n, offset, error);
    } else {
      var whole, part := PrefixReads(data, n, offset, error);
      PrefixContentsIff(data, n, whole, part);
    }
  }

  lemma PrefixOfFirst(der: seq<Byte>, n: nat)
    requires Decode(der).Ok? && Ends(der).1 <= |der| && n < Ends(der).0
    ensures Decode(der[..n]).Err?
  {
    var start := ReadLength(der, 1).value.next;
    AcceptedOffsets(der);
    if n >= 2 {
      PrefixLength(der, n, 1);
      if start <= n {
        PrefixInteger(der, n, start, InvalidR);
      }
    }
  }

  lemma AcceptedOffsets(der: seq<Byte>)
    requires Decode(der).Ok? && Ends(der).1 <= |der|
    ensures 2 <= ReadLength(der, 1).value.next < Ends(der).0 < Ends(der).1
  {
  }

  lemma PrefixOfSecond(der: seq<Byte>, n: nat)
    requires Decode(der).Ok? && Ends(der).0 <= n <= |der| && Ends(der).1 <= |der|
    ensures var second := ReadInteger(der[..n], Ends(der).0, InvalidS);
            if second.Err? then Decode(der[..n]).Err?
            else Decode(der[..n]) == Ok(Signature(Decode(der).value.r, second.value.value))
  {
    AcceptedOffsets(der);
    PrefixLength(der, n, 1);
    PrefixInteger(der, n, ReadLength(der, 1).value.next, InvalidR);
  }

  /**
   A signature that is cut short is rejected only if the cut comes before the first length byte of
   the second integer; from there on the decoder returns a number made of the bytes that are left.
   */
  lemma TruncatedRejectedIff(der: seq<Byte>, n: nat)
    requires Decode(der).Ok? && Ends(der).1 <= |der| && n <= |der|
    ensures Decode(der[..n]).Err? <==> n < Ends(der).0 + 2
  {
    AcceptedOffsets(der);
    if n < Ends(der).0 {
      PrefixOfFirst(der, n);
    } else {
      PrefixOfSecond(der, n);
      PrefixInteger(der, n, Ends(der).0, InvalidS);
    }
  }

  lemma KeptContents(enc: seq<Byte>, start: nat, s: seq<Byte>, kept: nat)
    requires start + |s| == |enc| && enc[start..] == s && kept <= |s|
    ensures Slice(enc[..start + kept], start, |enc|) == s[..kept]
  {
    assert enc[..start + kept][start..] == enc[start..][..kept];
  }

  /** The parts of a framing, without the way it was put together. */
  ghost predicate Marked(enc: seq<Byte>, k: Marks, n: nat, r: seq<Byte>, s: seq<Byte>) {
    LaidOut(enc, k, n, |s|) && enc[k.rLength..k.r] == r && k.sLength + |s| == |enc| && enc[k.sLength..] == s
  }

  lemma CutLaidOut(enc: seq<Byte>, k: Marks, n: nat, r: seq<Byte>, s: seq<Byte>, kept: nat, cut: seq<Byte>)
    requires Marked(enc, k, n, r, s) && kept <= |s| && cut == enc[..k.sLength + kept]
    ensures LaidOut(cut, k, n, |s|) && cut[k.rLength..k.r] == r
  {
    PrefixLaidOut(enc, k, n, |s|, k.sLength + kept);
    PrefixSlice(enc, k.sLength + kept, k.rLength, k.r);
  }

  lemma CutRead(enc: seq<Byte>, k: Marks, n: nat, r: seq<Byte>, s: seq<Byte>, kept: nat, cut: seq<Byte>)
    requires Marked(enc, k, n, r, s) && kept <= |s| && cut == enc[..k.sLength + kept]
    ensures Decode(cut) == Ok(Signature(FromBytes(r), ValueAt(cut, k.sLength, |s|)))
  {
    CutLaidOut(enc, k, n, r, s, kept, cut);
    LaidOutDecodes(cut, k, n, |s|);
  }

  lemma CutValue(enc: seq<Byte>, start: nat, s: seq<Byte>, kept: nat, cut: seq<Byte>)
    requires start + |s| == |enc| && enc[start..] == s && kept <= |s| && cut == enc[..start + kept]
    ensures ValueAt(cut, start, |s|) == FromBytes(s[..kept])
  {
    KeptContents(enc, start, s, kept);
  }

  lemma CutDecodes(enc: seq<Byte>, k: Marks, n: nat, r: seq<Byte>, s: seq<Byte>, kept: nat, cut: seq<Byte>)
    requires Marked(enc, k, n, r, s) && kept <= |s| && cut == enc[..k.sLength + kept]
    ensures Decode(cut) == Ok(Signature(FromBytes(r), FromBytes(s[..kept])))
  {
    CutRead(enc, k, n, r, s, kept, cut);
    CutValue(enc, k.sLength, s, kept, cut);
  }

  lemma FramingMarked(
      enc: seq<Byte>, n: nat, header: seq<Byte>, rLength: seq<Byte>, r: seq<Byte>, sLength: seq<Byte>, s: seq<Byte>)
    returns (k: Marks)
    requires IsFraming(enc, n, header, rLength, r, sLength, s)
    ensures Marked(enc, k, n, r, s)
  {
    k := MarksOf(header, rLength, r, sLength);
    assert enc + [] == enc;
    FramingLaidOut(enc, n, header, rLength, r, sLength, s, []);
  }

  /** Cut within the contents of s: r is right, and s is the number that its first bytes make. */
  lemma TruncatedContents(
      enc: seq<Byte>, n: nat, header: seq<Byte>, rLength: seq<Byte>, r: seq<Byte>, sLength: seq<Byte>, s: seq<Byte>,
      kept: nat)
    requires IsFraming(enc, n, header, rLength, r, sLength, s) && kept <= |s|
    ensures |enc| >= |s| && Decode(enc[..|enc| - |s| + kept]) == Ok(Signature(FromBytes(r), FromBytes(s[..kept])))
  {
    var k := FramingMarked(enc, n, header, rLength, r, sLength, s);
    CutDecodes(enc, k, n, r, s, kept, enc[..|enc| - |s| + kept]);
  }

  // ----- the 64-byte form -----

  function Pow256(k: nat): nat { if k == 0 then 1 else 256 * Pow256(k - 1) }

  function Digits(n: nat, k: nat): (r: seq<Byte>)
    ensures |r| == k
  {
    if k == 0 then [] else Digits(n / 256, k - 1) + [n % 256]
  }

  /** n.to_bytes(k, "big"); None is the OverflowError. */
  function ToBytes(n: nat, k: nat): Option<seq<Byte>> { if n < Pow256(k) then Some(Digits(n, k)) else None }

  lemma {:induction false} DigitsAreDigits(n: nat, k: nat)
    requires n < Pow256(k)
    ensures FromBytes(Digits(n, k)) == n
  {
    if k > 0 {
      DigitsAreDigits(n / 256, k - 1);
      OneMoreByte(Digits(n / 256, k - 1), n % 256);
    }
  }

  /** The raw signature of sign_es256_jwt. */
  function RawSignature(r: nat, s: nat): Option<seq<Byte>> {
    var first, second := ToBytes(r, 32), ToBytes(s, 32);
    if first.Some? && second.Some? then Some(first.value + second.value) else None
  }

  /** Both numbers can be read back from the 64 bytes, which exist exactly for numbers below 2^256. */
  lemma RawSignatureDetermines(r: nat, s: nat)
    ensures RawSignature(r, s).Some? <==> r < Pow256(32) && s < Pow256(32)
    ensures RawSignature(r, s).Some? ==>
              var raw := RawSignature(r, s).value;
              |raw| == 64 && FromBytes(raw[..32]) == r && FromBytes(raw[32..]) == s
  {
    if r < Pow256(32) && s < Pow256(32) {
      DigitsAreDigits(r, 32);
      DigitsAreDigits(s, 32);
      assert (Digits(r, 32) + Digits(s, 32))[..32] == Digits(r, 32);
      assert (Digits(r, 32) + Digits(s, 32))[32..] == Digits(s, 32);
    }
  }

  /** The steps of sign_es256_jwt together: two signatures share their raw form only if they are equal. */
  lemma RawFormIsInjective(r: nat, s: nat, r': nat, s': nat)
    requires RawSignature(r, s).Some? && RawSignature(r, s) == RawSignature(r', s')
    ensures r == r' && s == s'
  {
    RawSignatureDetermines(r, s);
    RawSignatureDetermines(r', s');
  }
}
