/** The exception of lib/smartcard/iso/apdu_error.rb: it records the status
    and data of an error response, and its message spells both out in
    lowercase hexadecimal. */
module ApduErrors {
  import opened Wrappers
  import opened Bytes
  import opened HexFormat
  import opened IsoCardMixin

  datatype ApduError = ApduError(data: seq<byte>, status: nat, message: string)

  const MessagePrefix: string := "ISO-7816 response APDU has error status 0x"

  /** `data.map { |ch| '%02x' % ch }.join(' ')`. */
  function DataHex(data: seq<byte>): string
  {
    if data == [] then []
    else if |data| == 1 then Format(data[0], 2)
    else Format(data[0], 2) + " " + DataHex(data[1..])
  }

  /** message_for_apdu_response. */
  function MessageFor(response: Response): string
  {
    MessagePrefix + Format(response.status, 4) + " - " + DataHex(response.data)
  }

  /** ApduError.new(response): the fields are the response's own. */
  function NewApduError(response: Response): (e: ApduError)
    ensures e.status == response.status && e.data == response.data
    ensures e.message == MessageFor(response)
  {
    ApduError(response.data, response.status, MessageFor(response))
  }

  // ---------------------------------------------------------------------
  // Reading a message back

  /** Two-digit groups separated by single spaces. */
  function ParseDataHex(s: string): seq<nat>
    decreases |s|
  {
    if |s| < 2 then []
    else if |s| == 2 then [HexValue(s)]
    else [HexValue(s[..2])] + ParseDataHex(s[3..])
  }

  lemma {:induction false} DataHexRoundTrip(data: seq<byte>)
    ensures |DataHex(data)| == if data == [] then 0 else 3 * |data| - 1
    ensures ParseDataHex(DataHex(data)) == data
  {
    if data != [] {
      OctetAndStatusWidths(data[0], 0);
      FormatRoundTrip(data[0], 2);
      if |data| > 1 {
        DataHexRoundTrip(data[1..]);
        var s := DataHex(data);
        assert s[..2] == Format(data[0], 2);
        assert s[3..] == DataHex(data[1..]);
        assert [data[0]] + data[1..] == data;
      }
    }
  }

  /** The status and data a message names, for a status below 0x10000. */
  function ParseMessage(m: string): Option<(nat, seq<nat>)>
  {
    var n := |MessagePrefix|;
    if |m| < n + 7 || m[..n] != MessagePrefix || m[n + 4..n + 7] != " - " then None
    else Some((HexValue(m[n..n + 4]), ParseDataHex(m[n + 7..])))
  }

  /** The message determines the status word and the data it reports. */
  lemma MessageRoundTrip(response: Response)
    requires response.status < 65536
    ensures ParseMessage(NewApduError(response).message) == Some((response.status, response.data))
  {
    var m := MessageFor(response);
    var n := |MessagePrefix|;
    OctetAndStatusWidths(0, response.status);
    FormatRoundTrip(response.status, 4);
    DataHexRoundTrip(response.data);
    assert m[..n] == MessagePrefix;
    assert m[n..n + 4] == Format(response.status, 4);
    assert m[n + 4..n + 7] == " - ";
    assert m[n + 7..] == DataHex(response.data);
  }

  /** With no data the message ends in " - ". */
  lemma EmptyDataMessage(status: nat)
    ensures MessageFor(Response(status, [])) == MessagePrefix + Format(status, 4) + " - "
  {
  }

  /** The golden message of the exception's test. */
  lemma GoldenMessage()
    ensures NewApduError(Response(0x6A88, [0x31, 0x41, 0x59])).message
         == "ISO-7816 response APDU has error status 0x6a88 - 31 41 59"
  {
    GoldenStatus();
    GoldenData();
    assert MessagePrefix + "6a88" + " - " + "31 41 59"
        == "ISO-7816 response APDU has error status 0x6a88 - 31 41 59";
  }

  lemma GoldenStatus()
    ensures Format(0x6A88, 4) == "6a88"
  {
    assert HexDigits(0x6) == "6";
    assert HexDigits(0x6A) == "6a";
    assert HexDigits(0x6A8) == "6a8";
    assert HexDigits(0x6A88) == "6a88";
  }

  lemma GoldenData()
    ensures DataHex([0x31, 0x41, 0x59]) == "31 41 59"
  {
    assert Format(0x31, 2) == "31" && Format(0x41, 2) == "41" && Format(0x59, 2) == "59";
    assert [0x31, 0x41, 0x59][1..] == [0x41, 0x59];
    assert [0x41, 0x59][1..] == [0x59];
  }
}
