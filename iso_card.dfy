/** ISO/IEC 7816-4 command and response APDUs as lib/smartcard/iso/iso_card_mixin.rb
    frames them (section 5.1, command-response pairs): the APDU hash is
    serialized into CLA INS P1 P2 followed by Lc and the data, and the
    response is split into its data and the trailing status word SW1 SW2.

    The transport's `exchange_apdu` is a function parameter. The APDU hash
    values are Ruby Integers that the code never range-checks, so the
    command is a `seq<int>`; the transport replies with octets. */
module IsoCardMixin {
  import opened Wrappers
  import opened Bytes
  import opened HexFormat

  /** The recognized keys of the APDU hash; `None` is an absent key or nil. */
  datatype Command = Command(
    cla: Option<int>,
    ins: Option<int>,
    p1: Option<int>,
    p2: Option<int>,
    p12: Option<seq<int>>,
    data: Option<seq<int>>)

  /** The `{:status, :data}` hash. */
  datatype Response = Response(status: nat, data: seq<byte>)

  datatype IsoError =
    | MissingIns                          // 'Unspecified INS in apdu_data'
    | MalformedP1P2(p12: seq<int>)        // 'Malformed P1,P2 - ...'
    | ShortResponse                       // nil arithmetic on a reply shorter than two octets
    | ErrorStatus(status: nat, message: string)  // iso_apdu!'s RuntimeError

  function OrZero(v: Option<int>): int
  {
    if v.Some? then v.value else 0
  }

  /** The P1 and P2 octets: `:p12` when given, else `:p1` and `:p2`. */
  function P1P2(c: Command): seq<int>
  {
    if c.p12.Some? then c.p12.value else [OrZero(c.p1), OrZero(c.p2)]
  }

  /** serialize_apdu: fails without INS or with a `:p12` that does not
      hold exactly two values; otherwise CLA INS P1 P2 and then either Lc
      followed by the data or a single 0 when there is no data. */
  function Serialize(c: Command): (r: Result<seq<int>, IsoError>)
    ensures r.Failure? <==> c.ins.None? || (c.p12.Some? && |c.p12.value| != 2)
    ensures c.ins.None? ==> r == Failure(MissingIns)
    ensures c.ins.Some? && c.p12.Some? && |c.p12.value| != 2 ==> r == Failure(MalformedP1P2(c.p12.value))
    ensures r.Success? ==>
      && |r.value| == 5 + (if c.data.Some? then |c.data.value| else 0)
      && r.value[0] == OrZero(c.cla) && r.value[1] == c.ins.value
      && r.value[2..4] == P1P2(c)
      && r.value[4] == (if c.data.Some? then |c.data.value| else 0)
      && r.value[5..] == (if c.data.Some? then c.data.value else [])
  {
    if c.ins.None? then Failure(MissingIns)
    else if c.p12.Some? && |c.p12.value| != 2 then Failure(MalformedP1P2(c.p12.value))
    else
      var header := [OrZero(c.cla), c.ins.value] + P1P2(c);
      if c.data.Some? then Success(header + [|c.data.value|] + c.data.value)
      else Success(header + [0])
  }

  /** The step-by-step construction of serialize_apdu. */
  method SerializeApdu(c: Command) returns (r: Result<seq<int>, IsoError>)
    ensures r == Serialize(c)
  {
    if c.ins.None? {
      return Failure(MissingIns);
    }
    var apdu := [OrZero(c.cla), c.ins.value];
    if c.p12.Some? {
      if |c.p12.value| != 2 {
        return Failure(MalformedP1P2(c.p12.value));
      }
      apdu := apdu + c.p12.value;
    } else {
      apdu := apdu + [OrZero(c.p1)];
      apdu := apdu + [OrZero(c.p2)];
    }
    assert apdu == [OrZero(c.cla), c.ins.value] + P1P2(c);
    if c.data.Some? {
      apdu := apdu + [|c.data.value|];
      apdu := apdu + c.data.value;
    } else {
      apdu := apdu + [0];
    }
    return Success(apdu);
  }

  /** Reading a serialized command back: CLA, INS, P1 P2 and the Lc data. */
  datatype WireFields = WireFields(cla: int, ins: int, p1p2: seq<int>, data: seq<int>)

  function ParseCommand(w: seq<int>): Option<WireFields>
  {
    if |w| < 5 || w[4] != |w| - 5 then None
    else Some(WireFields(w[0], w[1], w[2..4], w[5..]))
  }

  /** Serializing and reading back recovers every field; a missing `:data`
      reads back as empty data, as Lc = 0 cannot tell the two apart. */
  lemma SerializeRoundTrip(c: Command)
    requires Serialize(c).Success?
    ensures ParseCommand(Serialize(c).value)
         == Some(WireFields(OrZero(c.cla), c.ins.value, P1P2(c), if c.data.Some? then c.data.value else []))
  {
  }

  /** deserialize_response: the last two octets are the status word, the
      rest is the data. Ruby raises on a reply shorter than two octets. */
  function Deserialize(response: seq<byte>): (r: Result<Response, IsoError>)
    ensures r.Failure? <==> |response| < 2
    ensures r.Success? ==> r.value.status < 65536 && |r.value.data| == |response| - 2
  {
    if |response| < 2 then Failure(ShortResponse)
    else Success(Response(response[|response| - 2] as int * 256 + response[|response| - 1], response[..|response| - 2]))
  }

  /** A reply made of data d and status word SW1 SW2 splits back into them. */
  lemma DeserializeSplits(d: seq<byte>, sw1: byte, sw2: byte)
    ensures Deserialize(d + [sw1, sw2]) == Success(Response(sw1 as int * 256 + sw2, d))
  {
    assert (d + [sw1, sw2])[..|d|] == d;
  }

  /** The status word is SW1 * 256 + SW2 for exactly one pair of octets. */
  lemma StatusWordUnique(sw1: byte, sw2: byte, t1: byte, t2: byte)
    requires sw1 as int * 256 + sw2 == t1 as int * 256 + t2
    ensures sw1 == t1 && sw2 == t2
  {
  }

  /** iso_apdu: the transport receives exactly the serialized command, and
      its reply is deserialized. */
  function IsoApdu(exchange: seq<int> -> seq<byte>, c: Command): (r: Result<Response, IsoError>)
    ensures Serialize(c).Failure? ==> r == Failure(Serialize(c).error)
    ensures Serialize(c).Success? ==> r == Deserialize(exchange(Serialize(c).value))
  {
    var wire :- Serialize(c);
    Deserialize(exchange(wire))
  }

  /** The message of iso_apdu!'s exception. */
  function StatusMessage(status: nat): string
  {
    "JavaCard response has error status 0x" + Format(status, 4)
  }

  /** iso_apdu!: the response data exactly when the status is 0x9000. */
  function IsoApduBang(exchange: seq<int> -> seq<byte>, c: Command): (r: Result<seq<byte>, IsoError>)
    ensures r.Success? <==> IsoApdu(exchange, c).Success? && IsoApdu(exchange, c).value.status == 0x9000
    ensures r.Success? ==> r.value == IsoApdu(exchange, c).value.data
    ensures IsoApdu(exchange, c).Success? && IsoApdu(exchange, c).value.status != 0x9000 ==>
      r == Failure(ErrorStatus(IsoApdu(exchange, c).value.status, StatusMessage(IsoApdu(exchange, c).value.status)))
  {
    var response :- IsoApdu(exchange, c);
    if response.status == 0x9000 then Success(response.data)
    else Failure(ErrorStatus(response.status, StatusMessage(response.status)))
  }

  /** The error message names the status in four hexadecimal digits. */
  lemma StatusMessageReadsBack(status: nat)
    requires status < 65536
    ensures |StatusMessage(status)| == 41
    ensures HexValue(StatusMessage(status)[37..]) == status
  {
    OctetAndStatusWidths(0, status);
    FormatRoundTrip(status, 4);
    assert StatusMessage(status)[37..] == Format(status, 4);
  }

  /** The serialization vectors of the mixin's tests. */
  lemma SerializeVectors()
    ensures Serialize(Command(None, Some(0x05), None, None, None, None)) == Success([0x00, 0x05, 0x00, 0x00, 0x00])
    ensures Serialize(Command(None, Some(0x09), None, Some(0x01), None, None)) == Success([0x00, 0x09, 0x00, 0x01, 0x00])
    ensures Serialize(Command(None, Some(0xF9), Some(0xAC), Some(0xEF), None, None)) == Success([0x00, 0xF9, 0xAC, 0xEF, 0x00])
    ensures Serialize(Command(None, Some(0xFA), None, None, Some([0xAD, 0xEC]), None)) == Success([0x00, 0xFA, 0xAD, 0xEC, 0x00])
    ensures Serialize(Command(None, Some(0x0E), None, None, None, Some([0x33, 0x95, 0x81, 0x63])))
         == Success([0x00, 0x0E, 0x00, 0x00, 0x04, 0x33, 0x95, 0x81, 0x63])
    ensures Serialize(Command(Some(0x80), Some(0x0F), Some(0xBA), Some(0xBE), None, Some([0x31, 0x41, 0x59])))
         == Success([0x80, 0x0F, 0xBA, 0xBE, 0x03, 0x31, 0x41, 0x59])
    ensures Serialize(Command(Some(0x80), None, Some(0xBA), Some(0xBE), None, Some([0x31, 0x41, 0x59]))) == Failure(MissingIns)
  {
    assert [0x00, 0x05] + [0x00, 0x00] + [0x00] == [0x00, 0x05, 0x00, 0x00, 0x00];
    assert [0x00, 0x09] + [0x00, 0x01] + [0x00] == [0x00, 0x09, 0x00, 0x01, 0x00];
    assert [0x00, 0xF9] + [0xAC, 0xEF] + [0x00] == [0x00, 0xF9, 0xAC, 0xEF, 0x00];
    assert [0x00, 0xFA] + [0xAD, 0xEC] + [0x00] == [0x00, 0xFA, 0xAD, 0xEC, 0x00];
    assert [0x00, 0x0E] + [0x00, 0x00] + [4] + [0x33, 0x95, 0x81, 0x63]
        == [0x00, 0x0E, 0x00, 0x00, 0x04, 0x33, 0x95, 0x81, 0x63];
    assert [0x80, 0x0F] + [0xBA, 0xBE] + [3] + [0x31, 0x41, 0x59] == [0x80, 0x0F, 0xBA, 0xBE, 0x03, 0x31, 0x41, 0x59];
  }

  /** The exchange vectors of the mixin's tests, for any transport that
      answers the serialized command as the mocks do. */
  lemma ExchangeVectors(win: seq<int> -> seq<byte>, lose: seq<int> -> seq<byte>)
    requires win([0x00, 0xF9, 0xAC, 0x00, 0x02, 0x31, 0x41]) == [0x67, 0x31, 0x90, 0x00]
    requires lose([0x00, 0xF9, 0xAC, 0x00, 0x02, 0x31, 0x41]) == [0x86, 0x31]
    ensures IsoApdu(win, Command(None, Some(0xF9), Some(0xAC), None, None, Some([0x31, 0x41])))
         == Success(Response(0x9000, [0x67, 0x31]))
    ensures IsoApdu(lose, Command(None, Some(0xF9), Some(0xAC), None, None, Some([0x31, 0x41])))
         == Success(Response(0x8631, []))
    ensures IsoApduBang(win, Command(None, Some(0xF9), Some(0xAC), None, None, Some([0x31, 0x41])))
         == Success([0x67, 0x31])
    ensures IsoApduBang(lose, Command(None, Some(0xF9), Some(0xAC), None, None, Some([0x31, 0x41]))).Failure?
  {
    var c := Command(None, Some(0xF9), Some(0xAC), None, None, Some([0x31, 0x41]));
    assert [0x00, 0xF9] + [0xAC, 0x00] + [2] + [0x31, 0x41] == [0x00, 0xF9, 0xAC, 0x00, 0x02, 0x31, 0x41];
    assert Serialize(c) == Success([0x00, 0xF9, 0xAC, 0x00, 0x02, 0x31, 0x41]);
    DeserializeSplits([0x67, 0x31], 0x90, 0x00);
    assert [0x67, 0x31] + [0x90, 0x00] == [0x67, 0x31, 0x90, 0x00];
    DeserializeSplits([], 0x86, 0x31);
    assert [] + [0x86, 0x31] == [0x86, 0x31];
  }
}
