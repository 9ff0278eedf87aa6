/** ASN.1 BER decoding, as lib/smartcard/gp/asn1_ber.rb does it: tag octets
    (ITU-T X.690 section 8.1.2), length octets (section 8.1.3), definite and
    indefinite contents with the end-of-contents octets 00 00 (section
    8.1.5), and sequences of TLVs decoded left to right.

    Every read that Ruby would make past the end of the array yields `nil`,
    and the arithmetic on it raises; the model returns `Failure(Truncated)`
    there. The decoder functions (`...Spec`) are the reference definitions;
    the methods are the loops of the source, proved equal to them. */
module Asn1Ber {
  import opened Wrappers
  import opened Bytes

  datatype TagClass = Universal | Application | Context | Private

  /** Tag information: the `:class`, `:primitive` and `:number` keys. */
  datatype Tag = Tag(tagClass: TagClass, primitive: bool, number: nat)

  datatype Length = Definite(n: nat) | Indefinite

  /** The decoder's `[tag, value]` pair; a constructed value holds the TLVs
      decoded from its contents. */
  datatype Tlv = Tlv(tag: Tag, value: TlvValue)
  datatype TlvValue = Primitive(bytes: seq<byte>) | Constructed(children: seq<Tlv>)

  datatype BerError =
    | Truncated        // a read past the end of the data
    | UnterminatedData // 'Unterminated data': no 00 00 after an indefinite length
    | UndefinedMethod  // the call to the undefined decode_tlv_sequence

  function Min(a: int, b: int): int { if a <= b then a else b }

  /** The class selected by the top two bits, `b >> 6`. */
  function ClassOf(b: byte): TagClass
  {
    [Universal, Application, Context, Private][b / 64]
  }

  /** `(b & 0x20) == 0`. */
  predicate IsPrimitive(b: byte)
  {
    (b / 32) % 2 == 0
  }

  // ---------------------------------------------------------------------
  // Identifier octets (X.690 section 8.1.2)

  /** The first index at or after pos whose octet has bit 8 clear: the last
      octet of a high tag number. */
  function LastTagOctet(data: seq<byte>, pos: nat): (r: Option<nat>)
    ensures r.Some? ==> pos <= r.value < |data| && data[r.value] < 128
    decreases |data| - pos
  {
    if pos >= |data| then None
    else if data[pos] < 128 then Some(pos)
    else LastTagOctet(data, pos + 1)
  }

  /** The end offset and number of a high tag number whose octets start at
      offset + 1: the base-128 value of the octets up to and including the
      first one with bit 8 clear. */
  function HighTagNumberSpec(data: seq<byte>, offset: nat): (r: Result<(nat, nat), BerError>)
    ensures r.Success? ==> offset + 1 < r.value.0 <= |data|
  {
    match LastTagOctet(data, offset + 1)
    case None => Failure(Truncated)
    case Some(last) => Success((last + 1, Base128(data[offset + 1..last + 1])))
  }

  /** decode_tag: the low five bits give the number unless they are all
      ones, in which case a high tag number follows. */
  function DecodeTagSpec(data: seq<byte>, offset: nat): (r: Result<(nat, Tag), BerError>)
    ensures r.Success? ==> offset < r.value.0 <= |data|
  {
    if offset >= |data| then Failure(Truncated)
    else
      var b := data[offset];
      if b % 32 != 31 then
        Success((offset + 1, Tag(ClassOf(b), IsPrimitive(b), b % 32)))
      else
        var n :- HighTagNumberSpec(data, offset);
        Success((n.0, Tag(ClassOf(b), IsPrimitive(b), n.1)))
  }

  /** decode_tag. */
  method DecodeTag(data: seq<byte>, offset: nat) returns (r: Result<(nat, Tag), BerError>)
    ensures r == DecodeTagSpec(data, offset)
  {
    if offset >= |data| {
      return Failure(Truncated);
    }
    var b := data[offset];
    var tagClass := ClassOf(b);
    var primitive := IsPrimitive(b);
    if b % 32 != 31 {
      return Success((offset + 1, Tag(tagClass, primitive, b % 32)));
    }
    var n := HighTagNumber(data, offset);
    if n.Failure? {
      return Failure(n.error);
    }
    return Success((n.value.0, Tag(tagClass, primitive, n.value.1)));
  }

  /** The loop of decode_tag, shifting in seven bits per octet. */
  method HighTagNumber(data: seq<byte>, offset: nat) returns (r: Result<(nat, nat), BerError>)
    ensures r == HighTagNumberSpec(data, offset)
  {
    var number: nat := 0;
    var pos := offset;
    while true
      invariant offset <= pos
      invariant pos < |data| ==> number == Base128(data[offset + 1..pos + 1])
      invariant LastTagOctet(data, offset + 1) == LastTagOctet(data, pos + 1)
      decreases |data| - pos
    {
      pos := pos + 1;
      if pos >= |data| {
        assert LastTagOctet(data, offset + 1) == None;
        return Failure(Truncated);
      }
      Base128Extend(data, offset + 1, pos);
      number := number * 128 + data[pos] % 128;
      LastTagOctetStep(data, pos);
      if data[pos] < 128 {
        assert LastTagOctet(data, offset + 1) == Some(pos);
        break;
      }
    }
    return Success((pos + 1, number));
  }

  /** One step of the search for the last tag octet. */
  lemma LastTagOctetStep(data: seq<byte>, pos: nat)
    requires pos < |data|
    ensures LastTagOctet(data, pos) == if data[pos] < 128 then Some(pos) else LastTagOctet(data, pos + 1)
  {
  }

  // ---------------------------------------------------------------------
  // Length octets (X.690 section 8.1.3)

  /** decode_length: short form, indefinite form (0x80), or long form with
      n = b & 0x7F following big-endian octets. */
  function DecodeLengthSpec(data: seq<byte>, offset: nat): (r: Result<(nat, Length), BerError>)
    ensures r.Success? ==> offset < r.value.0 <= |data|
  {
    if offset >= |data| then Failure(Truncated)
    else if data[offset] < 128 then Success((offset + 1, Definite(data[offset])))
    else
      var count := data[offset] % 128;
      if count == 0 then Success((offset + 1, Indefinite))
      else if offset + count >= |data| then Failure(Truncated)
      else Success((offset + count + 1, Definite(BigEndian(data[offset + 1..offset + count + 1]))))
  }

  /** The loop of decode_length. */
  method DecodeLength(data: seq<byte>, offset: nat) returns (r: Result<(nat, Length), BerError>)
    ensures r == DecodeLengthSpec(data, offset)
  {
    if offset >= |data| {
      return Failure(Truncated);
    }
    if data[offset] < 128 {
      return Success((offset + 1, Definite(data[offset])));
    }
    var lenBytes := data[offset] % 128;
    if lenBytes == 0 {
      return Success((offset + 1, Indefinite));
    }
    var length: nat := 0;
    var pos := offset;
    for k := 0 to lenBytes
      invariant pos == offset + k && pos < |data|
      invariant length == BigEndian(data[offset + 1..pos + 1])
    {
      pos := pos + 1;
      if pos >= |data| {
        return Failure(Truncated);
      }
      BigEndianExtend(data, offset + 1, pos);
      length := length * 256 + data[pos];
    }
    return Success((pos + 1, Definite(length)));
  }

  // ---------------------------------------------------------------------
  // Contents octets (X.690 sections 8.1.3 and 8.1.5)

  /** An end-of-contents pair 00 00 starts at j. */
  predicate PairAt(data: seq<byte>, j: int)
  {
    0 <= j && j + 1 < |data| && data[j] == 0 && data[j + 1] == 0
  }

  /** The indefinite-length scan of decode_value, from candidate length len. */
  function ScanTerminator(data: seq<byte>, offset: nat, len: nat): (r: Result<(nat, seq<byte>), BerError>)
    ensures r.Success? ==> r.value.0 == offset + |r.value.1| + 2 <= |data|
    decreases |data| - offset - len
  {
    if offset + len + 2 > |data| then Failure(UnterminatedData)
    else if data[offset + len] == 0 && data[offset + len + 1] == 0 then
      Success((offset + len + 2, data[offset..offset + len]))
    else ScanTerminator(data, offset, len + 1)
  }

  /** decode_value: a definite length takes that many octets (Ruby's slice
      stops at the end of the array); an indefinite one scans for 00 00. */
  function DecodeValueSpec(data: seq<byte>, offset: nat, length: Length): (r: Result<(nat, seq<byte>), BerError>)
    requires offset <= |data|
    ensures r.Success? ==> r.value.0 >= offset && |r.value.1| <= |data| - offset
  {
    match length
    case Definite(n) => Success((offset + n, data[offset..Min(offset + n, |data|)]))
    case Indefinite => ScanTerminator(data, offset, 0)
  }

  /** The loop of decode_value. */
  method DecodeValue(data: seq<byte>, offset: nat, length: Length) returns (r: Result<(nat, seq<byte>), BerError>)
    requires offset <= |data|
    ensures r == DecodeValueSpec(data, offset, length)
  {
    if length.Definite? {
      return Success((offset + length.n, data[offset..Min(offset + length.n, |data|)]));
    }
    var len: nat := 0;
    while true
      invariant ScanTerminator(data, offset, 0) == ScanTerminator(data, offset, len)
      decreases |data| - offset - len
    {
      if offset + len + 2 > |data| {
        return Failure(UnterminatedData);
      }
      if data[offset + len] == 0 && data[offset + len + 1] == 0 {
        break;
      }
      len := len + 1;
    }
    return Success((offset + len + 2, data[offset..offset + len]));
  }

  // ---------------------------------------------------------------------
  // TLVs and sequences of TLVs

  /** decode_tlv, with the constructed branch decoding the value octets as
      a sequence of TLVs (see DecodeTlvAsWritten for the code as written). */
  function DecodeTlvSpec(data: seq<byte>, offset: nat): (r: Result<(nat, Tlv), BerError>)
    ensures r.Success? ==> r.value.0 >= offset + 2
    decreases |data|, 0
  {
    var t :- DecodeTagSpec(data, offset);
    var l :- DecodeLengthSpec(data, t.0);
    var v :- DecodeValueSpec(data, l.0, l.1);
    var tlv :- TlvOf(t.1, v.1);
    Success((v.0, tlv))
  }

  /** The TLV a tag and its contents octets make: the octets themselves for
      a primitive tag, the TLVs decoded from them for a constructed one. */
  function TlvOf(tag: Tag, value: seq<byte>): (r: Result<Tlv, BerError>)
    ensures r.Success? ==> r.value.tag == tag
    decreases |value|, 2
  {
    if tag.primitive then Success(Tlv(tag, Primitive(value)))
    else
      var children :- DecodeSeqSpec(value, 0, |value|);
      Success(Tlv(tag, Constructed(children)))
  }

  /** The loop of decode: one TLV after another, stopping as soon as the
      offset reaches `limit`. */
  function DecodeSeqSpec(data: seq<byte>, offset: nat, limit: int): (r: Result<seq<Tlv>, BerError>)
    ensures r.Success? ==> |r.value| >= 1
    decreases |data|, 1, if offset <= |data| then |data| - offset + 1 else 0
  {
    var t :- DecodeTlvSpec(data, offset);
    if t.0 >= limit then Success([t.1])
    else
      var rest :- DecodeSeqSpec(data, t.0, limit);
      Success([t.1] + rest)
  }

  /** decode's default `length = data.length - offset`. */
  function DefaultLength(data: seq<byte>, offset: nat): int
  {
    |data| - offset
  }

  /** decode_tlv as written: for a constructed tag it calls
      decode_tlv_sequence, which no file defines, so Ruby raises. */
  function DecodeTlvAsWritten(data: seq<byte>, offset: nat): (r: Result<(nat, Tlv), BerError>)
    ensures r.Success? ==> r.value.1.tag.primitive
  {
    var t :- DecodeTagSpec(data, offset);
    var l :- DecodeLengthSpec(data, t.0);
    var v :- DecodeValueSpec(data, l.0, l.1);
    if t.1.primitive then Success((v.0, Tlv(t.1, Primitive(v.1))))
    else Failure(UndefinedMethod)
  }

  /** Prepends decoded TLVs to the rest of a decoding. */
  function Prepend(prefix: seq<Tlv>, r: Result<seq<Tlv>, BerError>): Result<seq<Tlv>, BerError>
  {
    match r
    case Success(rest) => Success(prefix + rest)
    case Failure(e) => Failure(e)
  }

  /** Helper for the sequence proofs: prepending nothing is the identity. */
  lemma PrependNil(r: Result<seq<Tlv>, BerError>)
    ensures Prepend([], r) == r
  {
    if r.Success? {
      assert [] + r.value == r.value;
    }
  }

  /** Helper for the sequence proofs: prepending in two steps is prepending
      the concatenation. */
  lemma PrependAssoc(s: seq<Tlv>, x: Tlv, r: Result<seq<Tlv>, BerError>)
    ensures Prepend(s, Prepend([x], r)) == Prepend(s + [x], r)
  {
    if r.Success? {
      assert s + ([x] + r.value) == (s + [x]) + r.value;
    }
  }

  lemma SeqStep(data: seq<byte>, pos: nat, length: int)
    requires DecodeTlvSpec(data, pos).Success?
    requires DecodeTlvSpec(data, pos).value.0 < length
    ensures DecodeSeqSpec(data, pos, length)
         == Prepend([DecodeTlvSpec(data, pos).value.1], DecodeSeqSpec(data, DecodeTlvSpec(data, pos).value.0, length))
  {
  }

  /** decode_tlv, composed from the three decoding steps. */
  method DecodeTlv(data: seq<byte>, offset: nat) returns (r: Result<(nat, Tlv), BerError>)
    ensures r == DecodeTlvSpec(data, offset)
    decreases |data|, 0
  {
    var t := DecodeTag(data, offset);
    if t.Failure? {
      return Failure(t.error);
    }
    var l := DecodeLength(data, t.value.0);
    if l.Failure? {
      return Failure(l.error);
    }
    var v := DecodeValue(data, l.value.0, l.value.1);
    if v.Failure? {
      return Failure(v.error);
    }
    var tag, value := t.value.1, v.value.1;
    if tag.primitive {
      return Success((v.value.0, Tlv(tag, Primitive(value))));
    }
    var children := Decode(value, 0, |value|);
    if children.Failure? {
      return Failure(children.error);
    }
    return Success((v.value.0, Tlv(tag, Constructed(children.value))));
  }

  /** decode(data, offset, length): the loop appending to `sequence`. */
  method Decode(data: seq<byte>, offset: nat, length: int) returns (r: Result<seq<Tlv>, BerError>)
    ensures r == DecodeSeqSpec(data, offset, length)
    decreases |data|, 1
  {
    var sequence: seq<Tlv> := [];
    var pos := offset;
    PrependNil(DecodeSeqSpec(data, offset, length));
    while true
      invariant DecodeSeqSpec(data, offset, length) == Prepend(sequence, DecodeSeqSpec(data, pos, length))
      decreases if pos <= |data| then |data| - pos + 1 else 0
    {
      var t := DecodeTlv(data, pos);
      if t.Failure? {
        return Failure(t.error);
      }
      if t.value.0 >= length {
        return Success(sequence + [t.value.1]);
      }
      SeqStep(data, pos, length);
      PrependAssoc(sequence, t.value.1, DecodeSeqSpec(data, t.value.0, length));
      sequence := sequence + [t.value.1];
      pos := t.value.0;
    }
  }

  // ---------------------------------------------------------------------
  // Properties of the identifier and length octets

  /** A high tag number: the identifier octet b has its low five bits set,
      the octets of cs all have bit 8 set except the last one, and the tag
      number is the base-128 value of cs (X.690 section 8.1.2.4). */
  lemma {:induction false} HighTagForm(p: seq<byte>, b: byte, cs: seq<byte>, rest: seq<byte>)
    requires b % 32 == 31 && |cs| >= 1
    requires forall i :: 0 <= i < |cs| - 1 ==> cs[i] >= 128
    requires cs[|cs| - 1] < 128
    ensures DecodeTagSpec(p + [b] + cs + rest, |p|)
         == Success((|p| + 1 + |cs|, Tag(ClassOf(b), IsPrimitive(b), Base128(cs))))
  {
    var data := p + [b] + cs + rest;
    assert data[|p|] == b;
    var last := |p| + |cs|;
    assert data[last] == cs[|cs| - 1];
    assert forall i :: |p| + 1 <= i < last ==> data[i] == cs[i - |p| - 1];
    LastTagOctetIs(data, |p| + 1, last);
    assert data[|p| + 1..last + 1] == cs;
  }

  lemma {:induction false} LastTagOctetIs(data: seq<byte>, pos: nat, last: nat)
    requires pos <= last < |data| && data[last] < 128
    requires forall i :: pos <= i < last ==> data[i] >= 128
    ensures LastTagOctet(data, pos) == Some(last)
    decreases last - pos
  {
    if pos < last {
      LastTagOctetIs(data, pos + 1, last);
    }
  }

  /** A long-form length: the octet 0x80 | n followed by the n octets bs
      gives the big-endian value of bs. */
  lemma LongLengthForm(data: seq<byte>, off: nat, bs: seq<byte>)
    requires 1 <= |bs| <= 127 && off + |bs| < |data|
    requires data[off] == 128 + |bs| && data[off + 1..off + |bs| + 1] == bs
    ensures DecodeLengthSpec(data, off) == Success((off + 1 + |bs|, Definite(BigEndian(bs))))
  {
    assert data[off] % 128 == |bs|;
  }

  /** The low tag numbers of the tests, after a three-octet prefix. */
  lemma LowTagVectors()
    ensures DecodeTagSpec([0x03, 0x14, 0x15, 0x82], 3) == Success((4, Tag(Context, true, 2)))
    ensures DecodeTagSpec([0x03, 0x14, 0x15, 0x29], 3) == Success((4, Tag(Universal, false, 9)))
    ensures DecodeTagSpec([0x03, 0x14, 0x15, 0xD9], 3) == Success((4, Tag(Private, true, 0x19)))
  {
  }

  /** 9F 65: a high tag number in one octet. */
  lemma HighTagVector(d: seq<byte>)
    requires d == [0x03, 0x14, 0x15, 0x9F, 0x65]
    ensures DecodeTagSpec(d, 3) == Success((5, Tag(Context, true, 0x65)))
  {
    HighTagForm([0x03, 0x14, 0x15], 0x9F, [0x65], []);
    assert [0x03, 0x14, 0x15] + [0x9F] + [0x65] + [] == d;
    assert Base128([0x65]) == 0x65 by {
      assert [0x65][..0] == [];
    }
  }

  /** 5F 81 65: a high tag number in two octets. */
  lemma LongHighTagVector(d: seq<byte>)
    requires d == [0x03, 0x14, 0x15, 0x5F, 0x81, 0x65]
    ensures DecodeTagSpec(d, 3) == Success((6, Tag(Application, true, 0xE5)))
  {
    HighTagForm([0x03, 0x14, 0x15], 0x5F, [0x81, 0x65], []);
    assert [0x03, 0x14, 0x15] + [0x5F] + [0x81, 0x65] + [] == d;
    assert Base128([0x81, 0x65]) == 0xE5 by {
      assert [0x81, 0x65][..1] == [0x81];
      assert [0x81][..0] == [];
    }
  }

  lemma LengthVectors()
    ensures DecodeLengthSpec([0x03, 0x14, 0x15, 0x12], 3) == Success((4, Definite(0x12)))
    ensures DecodeLengthSpec([0x03, 0x14, 0x15, 0x82, 0x05, 0x39], 3) == Success((6, Definite(0x539)))
    ensures DecodeLengthSpec([0x03, 0x14, 0x15, 0x80], 3) == Success((4, Indefinite))
  {
    var d := [0x03, 0x14, 0x15, 0x82, 0x05, 0x39];
    assert d[4..6] == [0x05, 0x39];
    assert BigEndian([0x05, 0x39]) == 0x539 by {
      assert [0x05, 0x39][1..] == [0x39];
      assert [0x39][1..] == [];
    }
  }

  // ---------------------------------------------------------------------
  // Properties of the contents octets

  lemma ValueVectors()
    ensures DecodeValueSpec(seq(20, i => i), 7, Definite(4)) == Success((11, [7, 8, 9, 10]))
    ensures DecodeValueSpec([0x03, 0x14, 0x15, 0x92, 0x65, 0x35, 0x00, 0x00, 0x01, 0x02, 0x03], 4, Indefinite)
         == Success((8, [0x65, 0x35]))
    ensures DecodeValueSpec([0x03, 0x14, 0x15, 0x92, 0x65, 0x35, 0x00, 0x00, 0x01, 0x02, 0x03], 6, Indefinite)
         == Success((8, []))
  {
    var d: seq<byte> := seq(20, i => i);
    assert d[7..11] == [7, 8, 9, 10];
    var e: seq<byte> := [0x03, 0x14, 0x15, 0x92, 0x65, 0x35, 0x00, 0x00, 0x01, 0x02, 0x03];
    assert ScanTerminator(e, 4, 0) == ScanTerminator(e, 4, 1) == ScanTerminator(e, 4, 2);
    assert e[4..6] == [0x65, 0x35];
  }

  /** The indefinite-length value is everything before the first 00 00
      pair at or after the offset, and the scan fails exactly when there is
      no such pair. */
  lemma {:induction false} IndefiniteValue(data: seq<byte>, offset: nat, len: nat)
    requires offset + len <= |data|
    requires forall j :: offset <= j < offset + len ==> !PairAt(data, j)
    ensures ScanTerminator(data, offset, len).Failure? <==> forall j :: offset <= j ==> !PairAt(data, j)
    ensures ScanTerminator(data, offset, len).Success? ==>
      var (next, v) := ScanTerminator(data, offset, len).value;
      && v == data[offset..offset + |v|]
      && PairAt(data, offset + |v|)
      && (forall j :: offset <= j < offset + |v| ==> !PairAt(data, j))
      && next == offset + |v| + 2
    decreases |data| - offset - len
  {
    if offset + len + 2 > |data| {
      assert forall j :: offset + len <= j ==> !PairAt(data, j);
    } else if data[offset + len] == 0 && data[offset + len + 1] == 0 {
      assert PairAt(data, offset + len);
    } else {
      IndefiniteValue(data, offset, len + 1);
    }
  }

  // ---------------------------------------------------------------------
  // Decoding in context

  /** The end offset and TLV of a decoding whose three steps succeeded. */
  function Finish(end: nat, r: Result<Tlv, BerError>): Result<(nat, Tlv), BerError>
  {
    match r
    case Success(tlv) => Success((end, tlv))
    case Failure(e) => Failure(e)
  }

  /** decode_tlv once its tag, length and value octets are known. */
  lemma TlvSteps(x: seq<byte>, ox: nat, t: (nat, Tag), l: (nat, Length), v: (nat, seq<byte>))
    requires DecodeTagSpec(x, ox) == Success(t)
    requires DecodeLengthSpec(x, t.0) == Success(l)
    requires DecodeValueSpec(x, l.0, l.1) == Success(v)
    ensures DecodeTlvSpec(x, ox) == Finish(v.0, TlvOf(t.1, v.1))
  {
  }

  lemma {:induction false} LastTagOctetExtend(a: seq<byte>, b: seq<byte>, pos: nat)
    requires LastTagOctet(a, pos).Some?
    ensures LastTagOctet(a + b, pos) == LastTagOctet(a, pos)
    decreases |a| - pos
  {
    assert (a + b)[pos] == a[pos];
    if a[pos] >= 128 {
      LastTagOctetExtend(a, b, pos + 1);
    }
  }

  lemma {:induction false} ScanExtend(a: seq<byte>, b: seq<byte>, off: nat, len: nat)
    requires ScanTerminator(a, off, len).Success?
    ensures ScanTerminator(a + b, off, len) == ScanTerminator(a, off, len)
    decreases |a| - off - len
  {
    assert (a + b)[off + len] == a[off + len];
    assert (a + b)[off + len + 1] == a[off + len + 1];
    if a[off + len] == 0 && a[off + len + 1] == 0 {
      assert (a + b)[off..off + len] == a[off..off + len];
    } else {
      ScanExtend(a, b, off, len + 1);
    }
  }

  lemma TagExtend(a: seq<byte>, b: seq<byte>, off: nat)
    requires DecodeTagSpec(a, off).Success?
    ensures DecodeTagSpec(a + b, off) == DecodeTagSpec(a, off)
  {
    assert (a + b)[off] == a[off];
    if a[off] % 32 == 31 {
      LastTagOctetExtend(a, b, off + 1);
      var last := LastTagOctet(a, off + 1).value;
      assert (a + b)[off + 1..last + 1] == a[off + 1..last + 1];
    }
  }

  lemma LengthExtend(a: seq<byte>, b: seq<byte>, off: nat)
    requires DecodeLengthSpec(a, off).Success?
    ensures DecodeLengthSpec(a + b, off) == DecodeLengthSpec(a, off)
  {
    assert (a + b)[off] == a[off];
    var n := a[off] % 128;
    if a[off] >= 128 && n > 0 {
      assert (a + b)[off + 1..off + n + 1] == a[off + 1..off + n + 1];
    }
  }

  lemma ValueExtend(a: seq<byte>, b: seq<byte>, off: nat, length: Length)
    requires off <= |a|
    requires DecodeValueSpec(a, off, length).Success? && DecodeValueSpec(a, off, length).value.0 <= |a|
    ensures DecodeValueSpec(a + b, off, length) == DecodeValueSpec(a, off, length)
  {
    match length
    case Definite(k) =>
      assert (a + b)[off..Min(off + k, |a + b|)] == a[off..Min(off + k, |a|)];
    case Indefinite =>
      ScanExtend(a, b, off, 0);
  }

  /** Octets after a complete TLV do not change its decoding. */
  lemma TlvExtend(a: seq<byte>, b: seq<byte>, off: nat)
    requires DecodeTlvSpec(a, off).Success? && DecodeTlvSpec(a, off).value.0 <= |a|
    ensures DecodeTlvSpec(a + b, off) == DecodeTlvSpec(a, off)
  {
    TagExtend(a, b, off);
    var t := DecodeTagSpec(a, off).value;
    LengthExtend(a, b, t.0);
    var l := DecodeLengthSpec(a, t.0).value;
    ValueExtend(a, b, l.0, l.1);
  }

  /** A single TLV decoded as a sequence up to its own length. */
  lemma SingleTlvSeq(a: seq<byte>, limit: int, first: Tlv)
    requires DecodeTlvSpec(a, 0) == Success((|a|, first)) && limit == |a|
    ensures DecodeSeqSpec(a, 0, limit) == Success([first])
  {
  }


  // ---------------------------------------------------------------------
  // Sequences as chains of TLVs

  /** The TLVs `tlvs` lie one after another in `data`: the i-th is decoded
      at offs[i] and ends at offs[i + 1]. */
  predicate Chain(data: seq<byte>, offs: seq<nat>, tlvs: seq<Tlv>)
    decreases |tlvs|
  {
    |offs| == |tlvs| + 1 &&
    (tlvs != [] ==>
      DecodeTlvSpec(data, offs[0]) == Success((offs[1], tlvs[0])) && Chain(data, offs[1..], tlvs[1..]))
  }

  /** Each TLV of a chain ends at least two octets after it starts. */
  lemma {:induction false} ChainStepUp(data: seq<byte>, offs: seq<nat>, tlvs: seq<Tlv>, i: nat)
    requires Chain(data, offs, tlvs) && i < |tlvs|
    ensures offs[i] + 2 <= offs[i + 1]
    decreases i
  {
    if i > 0 {
      ChainStepUp(data, offs[1..], tlvs[1..], i - 1);
    }
  }

  /** Offsets along a chain never decrease. */
  lemma {:induction false} ChainMonotone(data: seq<byte>, offs: seq<nat>, tlvs: seq<Tlv>, i: nat)
    requires Chain(data, offs, tlvs) && i < |offs|
    ensures offs[0] <= offs[i]
    decreases i
  {
    if i > 0 {
      ChainStepUp(data, offs, tlvs, 0);
      ChainMonotone(data, offs[1..], tlvs[1..], i - 1);
    }
  }

  /** Decoding a chain from its first offset, with a limit past the start
      of its last TLV and no further than its end, yields exactly the
      chain's TLVs, in order. */
  lemma {:induction false} DecodeChain(data: seq<byte>, offs: seq<nat>, tlvs: seq<Tlv>, limit: int)
    requires |tlvs| >= 1 && Chain(data, offs, tlvs)
    requires offs[|tlvs| - 1] < limit <= offs[|tlvs|]
    ensures DecodeSeqSpec(data, offs[0], limit) == Success(tlvs)
    decreases |tlvs|
  {
    if |tlvs| == 1 {
      assert [tlvs[0]] == tlvs;
    } else {
      var os, ts := offs[1..], tlvs[1..];
      ChainMonotone(data, os, ts, |ts| - 1);
      DecodeChain(data, os, ts, limit);
      SeqStep(data, offs[0], limit);
      assert [tlvs[0]] + ts == tlvs;
    }
  }

  // ---------------------------------------------------------------------
  // Whole TLVs and sequences

  /** A primitive TLV with a definite length holds its n contents octets. */
  lemma PrimitiveTlv(data: seq<byte>, off: nat, tag: Tag, e1: nat, e2: nat, n: nat)
    requires DecodeTagSpec(data, off) == Success((e1, tag)) && tag.primitive
    requires DecodeLengthSpec(data, e1) == Success((e2, Definite(n)))
    requires e2 + n <= |data|
    ensures DecodeTlvSpec(data, off) == Success((e2 + n, Tlv(tag, Primitive(data[e2..e2 + n]))))
  {
    assert DecodeValueSpec(data, e2, Definite(n)) == Success((e2 + n, data[e2..e2 + n]));
  }

  lemma TlvVector(d: seq<byte>)
    requires d == [0x03, 0x14, 0x15, 0x84, 0x08, 0xA0, 0x00, 0x00, 0x00, 0x03, 0x00, 0x00, 0x00]
    ensures DecodeTlvSpec(d, 3)
         == Success((13, Tlv(Tag(Context, true, 4), Primitive([0xA0, 0x00, 0x00, 0x00, 0x03, 0x00, 0x00, 0x00]))))
  {
    assert d[5..13] == [0xA0, 0x00, 0x00, 0x00, 0x03, 0x00, 0x00, 0x00] by {
      assert d[5..13] == d[5..];
    }
    assert DecodeTagSpec(d, 3) == Success((4, Tag(Context, true, 4)));
    assert DecodeLengthSpec(d, 4) == Success((5, Definite(8)));
    PrimitiveTlv(d, 3, Tag(Context, true, 4), 4, 5, 8);
  }

  // The nested select-response vector of the tests, one TLV at a time:
  // 6F 10 { 84 08 A0 00 00 00 03 00 00 00, A5 04 { 9F 65 01 FF } }

  function InnerTlv(): Tlv { Tlv(Tag(Context, true, 0x65), Primitive([0xFF])) }
  function AidTlv(): Tlv { Tlv(Tag(Context, true, 4), Primitive([0xA0, 0x00, 0x00, 0x00, 0x03, 0x00, 0x00, 0x00])) }
  function PropTlv(): Tlv { Tlv(Tag(Context, false, 5), Constructed([InnerTlv()])) }
  function FciTlv(): Tlv { Tlv(Tag(Application, false, 0x0F), Constructed([AidTlv(), PropTlv()])) }

  lemma InnerVector()
    ensures DecodeTlvSpec([0x9F, 0x65, 1, 0xFF], 0) == Success((4, InnerTlv()))
  {
    var inner: seq<byte> := [0x9F, 0x65, 1, 0xFF];
    HighTagForm([], 0x9F, [0x65], [1, 0xFF]);
    assert [] + [0x9F] + [0x65] + [1, 0xFF] == inner;
    assert Base128([0x65]) == 0x65 by {
      assert [0x65][1..] == [];
    }
    assert DecodeTagSpec(inner, 0) == Success((2, Tag(Context, true, 0x65)));
    assert DecodeLengthSpec(inner, 2) == Success((3, Definite(1)));
    assert inner[3..4] == [0xFF];
  }

  /** A constructed TLV with a low tag number and a short-form length at
      offset o holds the TLVs decoded from its contents octets. */
  lemma ShortConstructedAt(data: seq<byte>, o: nat, body: seq<byte>, tlv: Tlv)
    requires o + 2 + |body| <= |data| && |body| < 128
    requires data[o] % 32 != 31 && !IsPrimitive(data[o]) && data[o + 1] == |body|
    requires data[o + 2..o + 2 + |body|] == body
    requires tlv.tag == Tag(ClassOf(data[o]), false, data[o] % 32) && tlv.value.Constructed?
    requires DecodeSeqSpec(body, 0, |body|) == Success(tlv.value.children)
    ensures DecodeTlvSpec(data, o) == Success((o + 2 + |body|, tlv))
  {
    assert DecodeTagSpec(data, o) == Success((o + 1, tlv.tag));
    assert DecodeLengthSpec(data, o + 1) == Success((o + 2, Definite(|body|)));
    assert DecodeValueSpec(data, o + 2, Definite(|body|)) == Success((o + 2 + |body|, body));
    TlvSteps(data, o, (o + 1, tlv.tag), (o + 2, Definite(|body|)), (o + 2 + |body|, body));
  }

  /** A constructed TLV with a one-octet tag and a short length, alone. */
  lemma ShortConstructed(t: byte, n: byte, body: seq<byte>, tlv: Tlv)
    requires n == |body| < 128 && t % 32 != 31 && !IsPrimitive(t)
    requires tlv.tag == Tag(ClassOf(t), false, t % 32) && tlv.value.Constructed?
    requires DecodeSeqSpec(body, 0, |body|) == Success(tlv.value.children)
    ensures DecodeTlvSpec([t, n] + body, 0) == Success((2 + |body|, tlv))
  {
    var data := [t, n] + body;
    assert data[0] == t && data[1] == n;
    assert data[2..] == body;
    assert data[2..2 + |body|] == data[2..];
    ShortConstructedAt(data, 0, body, tlv);
  }

  lemma AidVector()
    ensures DecodeTlvSpec([0x84, 8, 0xA0, 0x00, 0x00, 0x00, 0x03, 0x00, 0x00, 0x00], 0) == Success((10, AidTlv()))
  {
    var aid: seq<byte> := [0x84, 8, 0xA0, 0x00, 0x00, 0x00, 0x03, 0x00, 0x00, 0x00];
    assert DecodeTagSpec(aid, 0) == Success((1, Tag(Context, true, 4)));
    assert DecodeLengthSpec(aid, 1) == Success((2, Definite(8)));
    assert aid[2..10] == [0xA0, 0x00, 0x00, 0x00, 0x03, 0x00, 0x00, 0x00];
  }

  /** Two TLVs one after the other decode as a sequence of two. */
  lemma TwoTlvs(data: seq<byte>, o0: nat, o1: nat, o2: nat, t0: Tlv, t1: Tlv)
    requires DecodeTlvSpec(data, o0) == Success((o1, t0))
    requires DecodeTlvSpec(data, o1) == Success((o2, t1))
    ensures DecodeSeqSpec(data, o0, o2) == Success([t0, t1])
  {
    var offs: seq<nat> := [o0, o1, o2];
    var tlvs := [t0, t1];
    assert Chain(data, offs[2..], tlvs[2..]);
    assert Chain(data, offs[1..], tlvs[1..]);
    ChainStepUp(data, offs, tlvs, 1);
    DecodeChain(data, offs, tlvs, o2);
  }

  lemma FciAid(body: seq<byte>)
    requires body == [0x84, 8, 0xA0, 0x00, 0x00, 0x00, 0x03, 0x00, 0x00, 0x00, 0xA5, 4, 0x9F, 0x65, 1, 0xFF]
    ensures DecodeTlvSpec(body, 0) == Success((10, AidTlv()))
  {
    var aid: seq<byte> := [0x84, 8, 0xA0, 0x00, 0x00, 0x00, 0x03, 0x00, 0x00, 0x00];
    AidVector();
    assert body == aid + body[10..];
    TlvExtend(aid, body[10..], 0);
  }

  lemma FciProp(body: seq<byte>)
    requires body == [0x84, 8, 0xA0, 0x00, 0x00, 0x00, 0x03, 0x00, 0x00, 0x00, 0xA5, 4, 0x9F, 0x65, 1, 0xFF]
    ensures DecodeTlvSpec(body, 10) == Success((16, PropTlv()))
  {
    var inner: seq<byte> := [0x9F, 0x65, 1, 0xFF];
    InnerVector();
    SingleTlvSeq(inner, 4, InnerTlv());
    assert body[12..16] == inner;
    assert ClassOf(0xA5) == Context;
    ShortConstructedAt(body, 10, inner, PropTlv());
  }

  lemma FciBody(body: seq<byte>)
    requires body == [0x84, 8, 0xA0, 0x00, 0x00, 0x00, 0x03, 0x00, 0x00, 0x00, 0xA5, 4, 0x9F, 0x65, 1, 0xFF]
    ensures DecodeSeqSpec(body, 0, 16) == Success([AidTlv(), PropTlv()])
  {
    FciAid(body);
    FciProp(body);
    TwoTlvs(body, 0, 10, 16, AidTlv(), PropTlv());
  }

  /** The select response of the tests decodes, as a single TLV, to the
      FCI tree. */
  lemma FciVector(fci: seq<byte>)
    requires fci == [0x6F, 16, 0x84, 8, 0xA0, 0x00, 0x00, 0x00, 0x03, 0x00, 0x00, 0x00, 0xA5, 4, 0x9F, 0x65, 1, 0xFF]
    ensures DecodeTlvSpec(fci, 0) == Success((18, FciTlv()))
  {
    var body := fci[2..];
    assert body == [0x84, 8, 0xA0, 0x00, 0x00, 0x00, 0x03, 0x00, 0x00, 0x00, 0xA5, 4, 0x9F, 0x65, 1, 0xFF];
    assert fci == [fci[0], fci[1]] + fci[2..];
    FciBody(body);
    assert ClassOf(0x6F) == Application;
    ShortConstructed(fci[0], fci[1], body, FciTlv());
  }

  /** decode on the whole select response returns the one-element list
      holding the FCI tree. */
  lemma SequenceVector(fci: seq<byte>)
    requires fci == [0x6F, 16, 0x84, 8, 0xA0, 0x00, 0x00, 0x00, 0x03, 0x00, 0x00, 0x00, 0xA5, 4, 0x9F, 0x65, 1, 0xFF]
    ensures DecodeSeqSpec(fci, 0, DefaultLength(fci, 0)) == Success([FciTlv()])
  {
    FciVector(fci);
    SingleTlvSeq(fci, 18, FciTlv());
  }

  /** As written, decode_tlv cannot decode any constructed TLV: the tests'
      nested vector raises instead of returning the tree above. */
  lemma AsWrittenRejectsConstructed(data: seq<byte>, offset: nat)
    requires DecodeTagSpec(data, offset).Success? && !DecodeTagSpec(data, offset).value.1.primitive
    requires DecodeTlvSpec(data, offset).Success?
    ensures DecodeTlvAsWritten(data, offset) == Failure(UndefinedMethod)
  {
  }

  lemma AsWrittenVector(fci: seq<byte>)
    requires fci == [0x6F, 16, 0x84, 8, 0xA0, 0x00, 0x00, 0x00, 0x03, 0x00, 0x00, 0x00, 0xA5, 4, 0x9F, 0x65, 1, 0xFF]
    ensures DecodeTlvAsWritten(fci, 0) == Failure(UndefinedMethod)
  {
    FciVector(fci);
    AsWrittenRejectsConstructed(fci, 0);
  }

  /** The two decoders agree wherever the code as written succeeds. */
  lemma AsWrittenAgrees(data: seq<byte>, offset: nat)
    requires DecodeTlvAsWritten(data, offset).Success?
    ensures DecodeTlvSpec(data, offset) == DecodeTlvAsWritten(data, offset)
  {
  }

  /** decode from a non-zero offset compares the absolute offset with
      `data.length - offset`, so it stops early: here after one of the two
      TLVs that follow the offset. */
  lemma DecodeOffsetQuirk(d: seq<byte>)
    requires d == [0x03, 0x14, 0x15, 0x84, 0x01, 0xAA, 0x85, 0x01, 0xBB]
    ensures DecodeSeqSpec(d, 3, DefaultLength(d, 3)) == Success([Tlv(Tag(Context, true, 4), Primitive([0xAA]))])
    ensures DecodeFrom(d, 3, DefaultLength(d, 3))
         == Success([Tlv(Tag(Context, true, 4), Primitive([0xAA])), Tlv(Tag(Context, true, 5), Primitive([0xBB]))])
  {
    var first := Tlv(Tag(Context, true, 4), Primitive([0xAA]));
    var second := Tlv(Tag(Context, true, 5), Primitive([0xBB]));
    assert DecodeTagSpec(d, 3) == Success((4, Tag(Context, true, 4)));
    assert DecodeLengthSpec(d, 4) == Success((5, Definite(1)));
    PrimitiveTlv(d, 3, Tag(Context, true, 4), 4, 5, 1);
    assert d[5..6] == [0xAA];
    assert DecodeTagSpec(d, 6) == Success((7, Tag(Context, true, 5)));
    assert DecodeLengthSpec(d, 7) == Success((8, Definite(1)));
    PrimitiveTlv(d, 6, Tag(Context, true, 5), 7, 8, 1);
    assert d[8..9] == [0xBB];
    assert DefaultLength(d, 3) == 6;
    assert DecodeSeqSpec(d, 3, 6) == Success([first]);
    assert DecodeSeqSpec(d, 6, 9) == Success([second]);
    SeqStep(d, 3, 9);
    assert [first] + [second] == [first, second];
    assert DecodeFrom(d, 3, 6) == DecodeSeqSpec(d, 3, 9);
  }

  /** decode with `length` read as a count of octets from `offset`, as its
      default argument intends. */
  function DecodeFrom(data: seq<byte>, offset: nat, length: int): (r: Result<seq<Tlv>, BerError>)
    ensures r.Success? ==> |r.value| >= 1
  {
    DecodeSeqSpec(data, offset, offset + length)
  }

  /** With the count reading, decode returns exactly the TLVs that lie one
      after another from `offset` over `length` octets, wherever `offset`
      is. */
  lemma DecodeFromChain(data: seq<byte>, offs: seq<nat>, tlvs: seq<Tlv>)
    requires |tlvs| >= 1 && Chain(data, offs, tlvs)
    ensures DecodeFrom(data, offs[0], offs[|tlvs|] as int - offs[0]) == Success(tlvs)
  {
    ChainStepUp(data, offs, tlvs, |tlvs| - 1);
    DecodeChain(data, offs, tlvs, offs[|tlvs|]);
  }
}
