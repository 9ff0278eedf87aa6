# smartcard — a verified Dafny model of its codecs and helper structures

This project models the parts of the `smartcard` Ruby gem (with its C
extension) that are plain logic rather than calls into PC/SC, OpenSSL,
sockets or zip archives, and proves properties of that model in Dafny.

The modelled parts are:

- **ASN.1 BER decoder** (`Smartcard::Gp::Asn1Ber`, `asn1_ber.dfy`).
  - It decodes identifier octets, including the high-tag-number form (ITU-T X.690, section 8.1.2).
  - It decodes short, long and indefinite lengths (section 8.1.3).
  - An indefinite-length value ends at the end-of-contents octets `00 00` (section 8.1.5).
  - It decodes TLVs and sequences of TLVs.
  - Each loop of the Ruby code is a `method`. It is proved equal to a recursive specification function, and the lemmas are about those functions.
- **ISO 7816-4 APDU framing** (`Smartcard::Iso::IsoCardMixin`, `iso_card.dfy`).
  - `serialize_apdu` and `deserialize_response`.
  - `iso_apdu` and `iso_apdu!` over a transport passed in as a function.
  - The hex formatting that `iso_apdu!` and `ApduError` share (`hex.dfy`).
  - The `ApduError` message (`apdu_error.dfy`).
- **GlobalPlatform card mixin** (`gp_card.dfy`): SELECT by AID, and `install_applet`, which always raises.
- **DES helpers** (`Smartcard::Gp::Des`, `des.dfy`).
  - The `crypt` rules: key length, IV default, no padding, no empty data.
  - The ISO/IEC 9797-1 padding method 2.
  - The retail MAC (MAC algorithm 3) and the 3DES CBC-MAC.
  - The DES block cipher is an uninterpreted, length-preserving pair of functions.
- **CAP loader** (`Smartcard::Gp::CapLoader`, `cap_loader.dfy`).
  - The `{tag, u2 size, info}` component-record loop of `load_cap`.
  - `serialize_components` in load order.
  - `parse_applets`, `cap_load_data` and the `TAG_NAMES` table.
- **JCOP remote-terminal protocol** (`jcop_remote.dfy`).
  - The `[type, node, len16] + data` frame that `send_message` writes.
  - `recv_message` over a socket modelled as a scripted sequence of `recv` outcomes.
- **Transport auto-configuration** (`Smartcard::Iso::AutoConfigurator`, `auto_configurator.dfy`).
  - The `SCARD_PORT` string parser `env_configuration`.
  - `try_transport`, and the first-success rule of `auto_transport`.
- **PC/SC helper structures**.
  - The FFI reader-state queries with their bit-mask `pack_state`/`unpack_state` (`reader_state_queries.dfy`).
  - The C `ReaderStates` container (`reader_states.dfy`).
  - The Ruby and C multi-string decoders and the C multi-string encoder (`multi_strings.dfy`, `pcsc_context.dfy`).
  - The groups string and the handle rule of `Context#release`.

`wrappers.dfy` (Option/Result) and `bytes.dfy` (octets, big-endian and
base-128 numbers, `pack('n')`, C strings) are shared helpers.

Where the tests and the code disagree, the model follows the code:

- test/iso/iso_card_mixin_test.rb:27-44 expects a trailing `0x00` after every serialized command, which `serialize_apdu` never appends.
- test/gp/asn1_ber_test.rb:66-73 expects a merged hash and encoder functions, which do not exist.
- test/gp/cap_loader_test.rb:23-27 expects a `:header` entry.

Source defects are modelled as written and also in corrected form; see "## Findings".

## Model

| member | source | states |
|---|---|---|
| ApduErrors.NewApduError | lib/smartcard/iso/apdu_error.rb:30-34 | the error keeps the response's status and data, and its message is the formatted text for that response |
| ApduErrors.DataHexRoundTrip | lib/smartcard/iso/apdu_error.rb:39 | the data as two-digit hex joined by single spaces is 3n-1 characters long and parses back to exactly the data octets |
| ApduErrors.MessageRoundTrip | lib/smartcard/iso/apdu_error.rb:37-40 | for a 16-bit status the message parses back to exactly the status and the data, so the message loses nothing |
| ApduErrors.EmptyDataMessage | lib/smartcard/iso/apdu_error.rb:37-40 | with empty data the message is the prefix, the 4-digit status and a trailing " - " |
| ApduErrors.GoldenMessage | test/iso/iso_exception_test.rb:15-32 | status 0x6A88 with data 31 41 59 gives 'ISO-7816 response APDU has error status 0x6a88 - 31 41 59' |
| ApduErrors.GoldenStatus | lib/smartcard/iso/apdu_error.rb:38 | '%04x' of 0x6A88 is "6a88" |
| ApduErrors.GoldenData | lib/smartcard/iso/apdu_error.rb:39 | the data 31 41 59 renders as "31 41 59" |
| HexFormat.HexDigitsValue | lib/smartcard/iso/apdu_error.rb:38-39 | the lowercase hex digits of n are hex digits and read back as n |
| HexFormat.FormatRoundTrip | lib/smartcard/iso/apdu_error.rb:38-39 | '%0wx' of n is at least w hex digits long and reads back as n |
| HexFormat.FormatWidth | lib/smartcard/iso/apdu_error.rb:38-39 | a value below 16^w formats to exactly w digits |
| HexFormat.OctetAndStatusWidths | lib/smartcard/iso/apdu_error.rb:38-39 | an octet formats to exactly 2 digits and a 16-bit status to exactly 4 |
| IsoCardMixin.Serialize | lib/smartcard/iso/iso_card_mixin.rb:58-77 | fails exactly when INS is missing or a given p12 is not 2 long, with the matching error. Otherwise the command is CLA (default 0), INS, P1 P2 (from p12, else p1/p2 defaulting to 0), the data length (0 without data) and the data: 5+\|data\| values with no bound on \|data\| |
| IsoCardMixin.SerializeApdu | lib/smartcard/iso/iso_card_mixin.rb:58-77 | the step-by-step builder returns exactly Serialize's result, errors included |
| IsoCardMixin.SerializeRoundTrip | lib/smartcard/iso/iso_card_mixin.rb:58-77 | a serialized command parses back to its CLA, INS, P1 P2 and data |
| IsoCardMixin.Deserialize | lib/smartcard/iso/iso_card_mixin.rb:87-89 | fails exactly on a reply shorter than two octets; otherwise the status is below 65536 and the data is all but the last two octets |
| IsoCardMixin.DeserializeSplits | lib/smartcard/iso/iso_card_mixin.rb:87-89 | d + [sw1, sw2] deserializes to status sw1*256+sw2 and data d, for every d |
| IsoCardMixin.StatusWordUnique | lib/smartcard/iso/iso_card_mixin.rb:88 | the status determines both status octets |
| IsoCardMixin.IsoApdu | lib/smartcard/iso/iso_card_mixin.rb:42-45 | a serialization error propagates; otherwise the transport is handed exactly the serialized command and the result is the deserialized reply |
| IsoCardMixin.IsoApduBang | lib/smartcard/iso/iso_card_mixin.rb:28-32 | succeeds exactly when the exchange succeeds with status 0x9000, returning the response data; any other status raises with that status and its message |
| IsoCardMixin.StatusMessageReadsBack | lib/smartcard/iso/iso_card_mixin.rb:31 | the error text is 41 characters and its last four read back as the status |
| IsoCardMixin.SerializeVectors | test/iso/iso_card_mixin_test.rb:24-48 | the test's commands serialize as the code builds them (without the test's trailing 0x00), and a command without INS fails |
| IsoCardMixin.ExchangeVectors | test/iso/iso_card_mixin_test.rb:61-95 | with the win and lose transports, iso_apdu gives status 0x9000 with data 67 31 and status 0x8631 with no data; iso_apdu! returns 67 31 and fails |
| GpCardMixin.SelectWire | lib/smartcard/gp/gp_card_mixin.rb:15-17 | the SELECT command serializes to 00 A4 04 00 \|aid\| followed by the AID |
| GpCardMixin.SelectApplication | lib/smartcard/gp/gp_card_mixin.rb:15-17 | the transport receives exactly 00 A4 04 00 \|aid\| aid. The result succeeds exactly when the reply ends in 90 00, and is then the reply without those two octets. Any other status fails with that status |
| GpCardMixin.SelectVector | test/gp/gp_card_mixin_test.rb:25-32 | selecting AID 19 83 12 29 10 against a card answering 90 00 returns no data |
| GpCardMixin.InstallApplet | lib/smartcard/gp/gp_card_mixin.rb:23-25 | fails for every input |
| Bytes.BigEndianExtend | lib/smartcard/gp/asn1_ber.rb:58-61 | one more length octet multiplies the big-endian value by 256 and adds the octet |
| Bytes.Base128Extend | lib/smartcard/gp/asn1_ber.rb:33-38 | one more tag octet multiplies the base-128 number by 128 and adds its low seven bits |
| Bytes.U16Octets | lib/smartcard/iso/jcop_remote_protocol.rb:24-25 | pack('n') of a value below 65536 is its high and low octet |
| Bytes.U16RoundTrip | lib/smartcard/gp/cap_loader.rb:44 | pack('n') then unpack('n') of a value below 65536 is the identity |
| Bytes.UpToNul | smartcard/ext/smartcard_pcsc/pcsc_reader_states.c:230 | the octets before the first NUL, as rb_str_new2 and FFI's read_string (lib/smartcard/pcsc/reader_state_queries.rb:161) take them |
| Bytes.UpToNulNoNul | smartcard/ext/smartcard_pcsc/pcsc_reader_states.c:255-261 | a written name without NULs reads back whole |
| Des.CbcEncrypt | lib/smartcard/gp/des.rb:34-44 | CBC encryption of whole blocks keeps the length |
| Des.CbcDecrypt | lib/smartcard/gp/des.rb:34-44 | CBC decryption of whole blocks keeps the length |
| Des.CbcRoundTrip | lib/smartcard/gp/des.rb:34-44 | CBC decryption under the inverse block function undoes CBC encryption with the same IV |
| Des.CbcLastBlock | lib/smartcard/gp/des.rb:64 | the last block of a CBC encryption is the final chaining value |
| Des.Crypt | lib/smartcard/gp/des.rb:34-44 | succeeds exactly when the key is 8 octets (DES) or at least 16 (DES-EDE), the IV (default eight zeros) has at least 8 octets and the data is a non-empty whole number of blocks; a short key, a short IV and empty data each give their own error; the output has the input's length |
| Des.CryptTruncates | lib/smartcard/gp/des.rb:38-39 | a key longer than 16 octets and an IV longer than 8 act as their leading 16 and 8 octets |
| Des.CryptRoundTrip | lib/smartcard/gp/des.rb:34-44 | decrypting with the same key and IV restores the data |
| Des.PadShape | lib/smartcard/gp/des.rb:49-50 | the padded length is the least multiple of 8 above \|data\|; the data is a prefix, followed by 0x80 and then only zeros |
| Des.PadRoundTrip | lib/smartcard/gp/des.rb:49-50 | the padding can be removed again, so distinct data pad differently |
| Des.MacRetail | lib/smartcard/gp/des.rb:47-56 | a MAC computed by mac_retail as written is exactly 8 octets |
| Des.RetailFirstPass | lib/smartcard/gp/des.rb:53 | for \|data\| < 8 the DES pass over all but the last block is handed the empty string and fails; otherwise it succeeds and its last 8 octets are the CBC chaining value under the first key half from the caller's IV |
| Des.LastBlockCrypt | lib/smartcard/gp/des.rb:55 | crypt of one block under a key of at least 16 octets is the DES-EDE output transformation, under the first 16 octets, of the block XOR the IV |
| Des.MacRetailIsAlgorithm3 | lib/smartcard/gp/des.rb:47-56 | for \|data\| >= 8, mac_retail is ISO/IEC 9797-1 MAC algorithm 3 over the padded data with the caller's IV; for shorter data it fails with the empty-data error |
| Des.MacRetailCorrected | lib/smartcard/gp/des.rb:47-56 | the corrected retail MAC is exactly 8 octets |
| Des.MacRetailCorrectedIsAlgorithm3 | lib/smartcard/gp/des.rb:47-56 | the corrected retail MAC is MAC algorithm 3 with the caller's IV for every data length |
| Des.OutputTransformInjective | lib/smartcard/gp/des.rb:55 | with an invertible cipher the 3DES output transformation is injective |
| Des.OneBlockIvMatters | lib/smartcard/gp/des.rb:53-55 | over a single block, MAC algorithm 3 with a non-zero IV differs from the zero-IV result |
| Des.MacRetailShortData | lib/smartcard/gp/des.rb:53 | for data shorter than 8 octets mac_retail as written fails, while the corrected MAC is algorithm 3 with the caller's IV |
| Des.Mac3Des | lib/smartcard/gp/des.rb:58-65 | succeeds exactly for keys of 8 octets or of at least 16 and is then 8 octets |
| Des.Mac3DesIsCbcMac | lib/smartcard/gp/des.rb:58-65 | mac_3des is the CBC-MAC (last chaining value, zero IV) of the padded data |
| Asn1Ber.LastTagOctet | lib/smartcard/gp/asn1_ber.rb:33-38 | a position found lies at or after pos within the data, and its octet has bit 7 clear |
| Asn1Ber.HighTagNumberSpec | lib/smartcard/gp/asn1_ber.rb:31-39 | a high-form tag number ends past the first subsequent octet and within the data |
| Asn1Ber.DecodeTagSpec | lib/smartcard/gp/asn1_ber.rb:26-42 | a decoded tag ends after its offset and within the data |
| Asn1Ber.DecodeTag | lib/smartcard/gp/asn1_ber.rb:26-42 | the method's result, offset or error, is DecodeTagSpec's |
| Asn1Ber.HighTagNumber | lib/smartcard/gp/asn1_ber.rb:31-39 | the accumulation loop returns HighTagNumberSpec's result |
| Asn1Ber.HighTagForm | lib/smartcard/gp/asn1_ber.rb:27-41 | for a first octet with low bits 1F followed by octets with bit 7 set and one with it clear: the class and primitive bit come from the first octet, the number is the base-128 value, and the next offset is just past the last octet |
| Asn1Ber.DecodeLengthSpec | lib/smartcard/gp/asn1_ber.rb:53-63 | a decoded length ends after its offset and within the data |
| Asn1Ber.DecodeLength | lib/smartcard/gp/asn1_ber.rb:53-63 | the method's result is DecodeLengthSpec's |
| Asn1Ber.LongLengthForm | lib/smartcard/gp/asn1_ber.rb:54-62 | 0x80+n followed by n octets is the big-endian value of those octets, with next offset offset+1+n |
| Asn1Ber.ScanTerminator | lib/smartcard/gp/asn1_ber.rb:76-82 | the next offset is the start plus the value length plus 2, within the data |
| Asn1Ber.IndefiniteValue | lib/smartcard/gp/asn1_ber.rb:76-82 | the scan fails (Unterminated data) exactly when no 00 00 pair starts at or after the offset; otherwise the value is the octets before the first pair and the next offset is just past it |
| Asn1Ber.DecodeValueSpec | lib/smartcard/gp/asn1_ber.rb:73-83 | the value lies within the data from the offset, and the next offset does not go back |
| Asn1Ber.DecodeValue | lib/smartcard/gp/asn1_ber.rb:73-83 | the method's result is DecodeValueSpec's |
| Asn1Ber.DecodeTlvSpec | lib/smartcard/gp/asn1_ber.rb:96-104 | a decoded TLV advances the offset by at least two octets |
| Asn1Ber.TlvOf | lib/smartcard/gp/asn1_ber.rb:101-102 | the TLV keeps the decoded tag |
| Asn1Ber.DecodeTlv | lib/smartcard/gp/asn1_ber.rb:96-104 | the method, with its recursion through Decode, returns DecodeTlvSpec's result |
| Asn1Ber.PrimitiveTlv | lib/smartcard/gp/asn1_ber.rb:96-104 | a primitive tag and a definite length in range give exactly those value octets and the offset after them |
| Asn1Ber.ShortConstructed | lib/smartcard/gp/asn1_ber.rb:96-104 | a constructed tag with a short length decodes to the tree of the sequence its contents decode to |
| Asn1Ber.TlvExtend | lib/smartcard/gp/asn1_ber.rb:96-104 | octets appended after a decoded TLV do not change its decoding |
| Asn1Ber.DecodeSeqSpec | lib/smartcard/gp/asn1_ber.rb:110-118 | decode returns at least one TLV |
| Asn1Ber.SeqStep | lib/smartcard/gp/asn1_ber.rb:112-116 | a TLV ending before the limit is followed by the decoding from its end |
| Asn1Ber.Decode | lib/smartcard/gp/asn1_ber.rb:110-118 | the loop returns DecodeSeqSpec's result |
| Asn1Ber.SingleTlvSeq | lib/smartcard/gp/asn1_ber.rb:110-118 | input that is one TLV decodes to the one-element sequence |
| Asn1Ber.DecodeChain | lib/smartcard/gp/asn1_ber.rb:110-118 | TLVs lying one after another, with the limit inside the last, decode to exactly that sequence, so from offset 0 the spans tile the input |
| Asn1Ber.LowTagVectors | test/gp/asn1_ber_test.rb:12-30 | 82, 29 and D9 after a 3-octet prefix decode to context/2 primitive, universal/9 constructed and private/0x19 primitive |
| Asn1Ber.HighTagVector | test/gp/asn1_ber_test.rb:18 | 9F 65 decodes to context/0x65, ending at offset 5 |
| Asn1Ber.LongHighTagVector | test/gp/asn1_ber_test.rb:19-20 | 5F 81 65 decodes to application/0xE5, ending at offset 6 |
| Asn1Ber.LengthVectors | test/gp/asn1_ber_test.rb:32-48 | 12 is 0x12, 82 05 39 is 0x539 and 80 is indefinite, with the test's offsets |
| Asn1Ber.ValueVectors | test/gp/asn1_ber_test.rb:50-63 | a definite value of 4 from offset 7; indefinite values from offsets 4 and 6 give 65 35 and nothing, both ending at offset 8 |
| Asn1Ber.TlvVector | test/gp/asn1_ber_test.rb:65-74 | 84 08 A0 00 00 00 03 00 00 00 after the prefix decodes to context/4 with that AID, ending at offset 13 |
| Asn1Ber.FciVector | test/gp/asn1_ber_test.rb:76-88 | the nested FCI vector decodes to the application/0x0F tree holding the AID and the context/5 TLV with 9F 65 FF |
| Asn1Ber.SequenceVector | test/gp/asn1_ber_test.rb:76-88 | decode of the FCI vector is the one-element sequence holding that tree |
| Asn1Ber.DecodeTlvAsWritten | lib/smartcard/gp/asn1_ber.rb:96-104 | decode_tlv as written succeeds only on primitive TLVs |
| Asn1Ber.AsWrittenRejectsConstructed | lib/smartcard/gp/asn1_ber.rb:101-102 | every constructed TLV that the corrected decoder accepts raises in the code as written |
| Asn1Ber.AsWrittenVector | lib/smartcard/gp/asn1_ber.rb:101-102 | the test's nested FCI vector raises as written |
| Asn1Ber.AsWrittenAgrees | lib/smartcard/gp/asn1_ber.rb:96-104 | wherever the code as written succeeds, the corrected decoder gives the same result |
| Asn1Ber.DecodeOffsetQuirk | lib/smartcard/gp/asn1_ber.rb:110-115 | from offset 3, decode as written returns only the first of the two TLVs that follow, while the count reading returns both |
| Asn1Ber.DecodeFrom | lib/smartcard/gp/asn1_ber.rb:110 | decode with `length` counted from the offset returns at least one TLV |
| Asn1Ber.DecodeFromChain | lib/smartcard/gp/asn1_ber.rb:110-118 | with the count reading, TLVs lying one after another from any offset decode to exactly that sequence |
| CapLoader.TagNamesInjective | lib/smartcard/gp/cap_loader.rb:81-85 | TAG_NAMES is defined exactly on 1..12 and no two tags share a name |
| CapLoader.FindTag | lib/smartcard/gp/cap_loader.rb:42 | a tag found for a name maps to that name |
| CapLoader.FindTagTotal | lib/smartcard/gp/cap_loader.rb:42 | every component name is found, and the tag found is the one tag with that name |
| CapLoader.TagOf | lib/smartcard/gp/cap_loader.rb:42 | the tag of a name maps back to the name |
| CapLoader.NextOffset | lib/smartcard/gp/cap_loader.rb:29 | the record loop advances by at least 3 octets |
| CapLoader.ReadRecords | lib/smartcard/gp/cap_loader.rb:23-30 | the while loop returns the record-by-record specification RecordsFrom |
| CapLoader.LoadCap | lib/smartcard/gp/cap_loader.rb:18-34 | loading the archive's entries in order folds the record loop over them from an empty map |
| CapLoader.ReadChain | lib/smartcard/gp/cap_loader.rb:24-30 | records lying one after another are read into the map in order, a later tag overwriting an earlier one |
| CapLoader.RecordAfter | lib/smartcard/gp/cap_loader.rb:25-29 | a record with a value below 65536 octets is read back with its name, its value and the offset after it |
| CapLoader.Record | lib/smartcard/gp/cap_loader.rb:44-46 | a serialized component is 3 octets longer than its value |
| CapLoader.SerializedLength | lib/smartcard/gp/cap_loader.rb:39-51 | the output length is the sum of 3+\|value\| over the present components |
| CapLoader.SerializeLength | lib/smartcard/gp/cap_loader.rb:39-51 | serialize_components' length is that sum over the ten loadable names |
| CapLoader.SerializeRoundTrip | lib/smartcard/gp/cap_loader.rb:24-51 | when every component is below 65536 octets, reading the serialized components back recovers exactly the components restricted to the ten loadable names |
| CapLoader.LoadableComponents | lib/smartcard/gp/cap_loader.rb:40-50 | that restriction keeps every present loadable component and drops descriptor, debug and the nil key |
| CapLoader.AppletAt | lib/smartcard/gp/cap_loader.rb:62-66 | an applet record advances the offset by 3 plus its AID length |
| CapLoader.ReadApplet | lib/smartcard/gp/cap_loader.rb:62-66 | the method reads one applet exactly as AppletAt specifies |
| CapLoader.ReadApplets | lib/smartcard/gp/cap_loader.rb:60-67 | the times loop from offset 1 returns AppletsFrom's result |
| CapLoader.ParseApplets | lib/smartcard/gp/cap_loader.rb:57-69 | parse_applets returns AppletsOf's result: no applets without an applet component, otherwise section[0] applets |
| CapLoader.AppletAfter | lib/smartcard/gp/cap_loader.rb:62-66 | an encoded applet record is read back as that applet and the offset after it |
| CapLoader.AppletsAfter | lib/smartcard/gp/cap_loader.rb:61-67 | encoded applet records lying one after another are read back in order |
| CapLoader.ParseAppletsRoundTrip | lib/smartcard/gp/cap_loader.rb:57-69 | an applet component made of a count and encoded applets parses back to exactly those applets |
| CapLoader.AppletVector | test/gp/cap_loader_test.rb:21-22 | the hello applet component gives AID 19 83 12 29 10 DE AD with install method 8 |
| CapLoader.CapLoadData | lib/smartcard/gp/cap_loader.rb:74-78 | a load error propagates. Otherwise the result fails exactly when parse_applets does, and is the serialized components together with the parsed applets |
| JcopRemoteProtocol.Frame | lib/smartcard/iso/jcop_remote_protocol.rb:24-25 | a frame is 4 octets longer than its data |
| JcopRemoteProtocol.FrameLayout | lib/smartcard/iso/jcop_remote_protocol.rb:24-25 | for type and node below 256 and data below 65536 octets, the frame is type, node, the big-endian data length, then the data |
| JcopRemoteProtocol.SendMessage | lib/smartcard/iso/jcop_remote_protocol.rb:23-27 | exactly the frame is appended to what the socket has sent, and nothing is read |
| JcopRemoteProtocol.RecvStep | lib/smartcard/iso/jcop_remote_protocol.rb:41 | a recv of n returns at most n octets |
| JcopRemoteProtocol.Socket.Recv | lib/smartcard/iso/jcop_remote_protocol.rb:41 | a recv consumes the next scripted outcome as RecvStep says, and sends nothing |
| JcopRemoteProtocol.Socket.Send | lib/smartcard/iso/jcop_remote_protocol.rb:26 | a send appends the octets and reads nothing |
| JcopRemoteProtocol.FillUp | lib/smartcard/iso/jcop_remote_protocol.rb:39-47 | a buffer filled to completion holds exactly the wanted number of octets |
| JcopRemoteProtocol.ReadFull | lib/smartcard/iso/jcop_remote_protocol.rb:39-47 | the read loop returns FillUp's outcome and leaves the socket where FillUp stops |
| JcopRemoteProtocol.RecvMessage | lib/smartcard/iso/jcop_remote_protocol.rb:37-63 | the header loop and the data loop together return RecvMessageSpec's outcome and leave the stream where it stops, sending nothing |
| JcopRemoteProtocol.HeaderStopped | lib/smartcard/iso/jcop_remote_protocol.rb:39-47 | a hang-up while reading the header gives nil and an empty read gives false |
| JcopRemoteProtocol.BodyStopped | lib/smartcard/iso/jcop_remote_protocol.rb:50-58 | a hang-up while reading the data gives nil and an empty read gives false |
| JcopRemoteProtocol.RecvMessageGot | lib/smartcard/iso/jcop_remote_protocol.rb:48-62 | a complete header and data give the message with the header's type and node and that data |
| JcopRemoteProtocol.FillStreaming | lib/smartcard/iso/jcop_remote_protocol.rb:39-47 | asking only for the octets still missing, the loop collects exactly the next wanted octets of the stream, however it is chunked, and leaves the rest unread |
| JcopRemoteProtocol.DataArrives | lib/smartcard/iso/jcop_remote_protocol.rb:50-58 | the data loop takes exactly \|d\| octets from a stream beginning with d, and what is left is the rest |
| JcopRemoteProtocol.FillStops | lib/smartcard/iso/jcop_remote_protocol.rb:40-45 | a hang-up or an empty read before the buffer is full ends the loop with nil or false |
| JcopRemoteProtocol.RecvRoundTrip | lib/smartcard/iso/jcop_remote_protocol.rb:23-63 | on a stream starting with the frame of m, chunked arbitrarily, recv_message returns m and leaves exactly the rest of the stream unread |
| JcopRemoteProtocol.RecvTruncated | lib/smartcard/iso/jcop_remote_protocol.rb:37-63 | a stream that stops in the middle of a frame gives nil on a hang-up and false on an empty read |
| JcopRemoteProtocol.TruncatedData | lib/smartcard/iso/jcop_remote_protocol.rb:50-58 | the same holds when the stream stops after the header, inside the data |
| JcopRemoteProtocol.HeaderArrives | lib/smartcard/iso/jcop_remote_protocol.rb:39-48 | the header loop takes exactly the frame's 4 header octets, whose length field is the data length |
| JcopRemoteProtocol.EmptyData | lib/smartcard/iso/jcop_remote_protocol.rb:50-62 | a frame with no data is delivered from a single chunk, without another read |
| AutoConfigurator.ToIDecimal | lib/smartcard/iso/auto_configurator.rb:50 | String#to_i of a decimal numeral is its value |
| AutoConfigurator.ToISigned | lib/smartcard/iso/auto_configurator.rb:50 | String#to_i reads a minus sign, and reads past a `0d` or `0D` radix prefix, before the digits |
| AutoConfigurator.LastIndexOf | lib/smartcard/iso/auto_configurator.rb:54 | rindex finds the last occurrence of the character, or none when it does not occur |
| AutoConfigurator.EnvConfiguration | lib/smartcard/iso/auto_configurator.rb:42-72 | a configuration exists exactly when the variable is set. It always names a transport class, a port is never 0, and a reader index is never negative |
| AutoConfigurator.LocalPort | lib/smartcard/iso/auto_configurator.rb:46-50 | ":N" is the JCOP transport at 127.0.0.1, port N, with 0 becoming 8050 |
| AutoConfigurator.HostPort | lib/smartcard/iso/auto_configurator.rb:51-56 | "@host:N" is host (up to the last ':') and port N, with 0 becoming 8050, for every host |
| AutoConfigurator.HostOnly | lib/smartcard/iso/auto_configurator.rb:51-56 | "@host" without ':' is that host at port 8050 |
| AutoConfigurator.ReaderPosition | lib/smartcard/iso/auto_configurator.rb:57-60 | "#N" is PC/SC reader index N-1, clamped at 0 |
| AutoConfigurator.RadixPort | lib/smartcard/iso/auto_configurator.rb:46-50 | ":0dN" is the JCOP transport at 127.0.0.1, port N, with 0 becoming 8050 |
| AutoConfigurator.RadixPosition | lib/smartcard/iso/auto_configurator.rb:57-60 | "#0dN" is PC/SC reader index N-1, clamped at 0 |
| AutoConfigurator.ReaderByName | lib/smartcard/iso/auto_configurator.rb:61-64 | any other string names the PC/SC reader |
| AutoConfigurator.VectorUnset | test/iso/auto_configurator_test.rb:22-25 | an unset variable gives no configuration |
| AutoConfigurator.VectorLocalPort | test/iso/auto_configurator_test.rb:26-31 | ":6996" gives 127.0.0.1 port 6996 |
| AutoConfigurator.VectorLocalNoPort | test/iso/auto_configurator_test.rb:32-37 | ":" gives 127.0.0.1 port 8050 |
| AutoConfigurator.VectorHostPort | test/iso/auto_configurator_test.rb:38-44 | "@moonstone:6996" gives moonstone port 6996 |
| AutoConfigurator.VectorHostOnly | test/iso/auto_configurator_test.rb:45-50 | "@moonstone" gives moonstone port 8050 |
| AutoConfigurator.VectorIpv6Port | test/iso/auto_configurator_test.rb:51-57 | "@ff80::0080:6996" gives host ff80::0080 port 6996 |
| AutoConfigurator.EnvVectorEmptyPort | lib/smartcard/iso/auto_configurator.rb:54-56 | "@ff80::0080:" gives host ff80::0080 port 8050 |
| AutoConfigurator.VectorReaderIndex | test/iso/auto_configurator_test.rb:65-70 | "#1" gives reader index 0 |
| AutoConfigurator.VectorRadixPort | lib/smartcard/iso/auto_configurator.rb:46-50 | ":0d9000" gives 127.0.0.1 port 9000 |
| AutoConfigurator.VectorRadixIndex | lib/smartcard/iso/auto_configurator.rb:57-60 | "#0d2" gives reader index 1 |
| AutoConfigurator.VectorReaderName | test/iso/auto_configurator_test.rb:71-78 | "Awesome Reader" names that reader |
| AutoConfigurator.TryTransport | lib/smartcard/iso/auto_configurator.rb:81-90 | fails exactly when no class is given; otherwise the connected transport when it connects, else nil |
| AutoConfigurator.FirstConnecting | lib/smartcard/iso/auto_configurator.rb:28-31 | the configuration found is in the list and connects; none is found only when none connects |
| AutoConfigurator.AutoTransport | lib/smartcard/iso/auto_configurator.rb:24-33 | with an environment configuration only it is tried; otherwise the first default that connects, in order |
| AutoConfigurator.DefaultsOrder | lib/smartcard/iso/auto_configurator.rb:17-21 | the JCOP emulator at 127.0.0.1:8050 is tried before PC/SC reader 0 |
| PcscMultiStrings.NulFrom | ext/smartcard_pcsc/pcsc_multi_strings.c:13-14 | the inner scan stops at the first NUL from i, or at the end |
| PcscMultiStrings.ScanRun | ext/smartcard_pcsc/pcsc_multi_strings.c:13-14 | the inner loop returns NulFrom's position |
| PcscMultiStrings.MultistringToArray | ext/smartcard_pcsc/pcsc_multi_strings.c:5-19 | the decoder returns Runs of the first mstr_len octets |
| PcscMultiStrings.RunsProper | ext/smartcard_pcsc/pcsc_multi_strings.c:10-17 | every decoded string is non-empty and NUL-free |
| PcscMultiStrings.RunsCons | ext/smartcard_pcsc/pcsc_multi_strings.c:10-17 | a non-empty NUL-free string and a NUL decode to that string followed by the decoding of the rest |
| PcscMultiStrings.RunsTerminated | ext/smartcard_pcsc/pcsc_multi_strings.c:10-17 | proper names, each followed by a NUL, then one more NUL, decode to exactly those names |
| PcscMultiStrings.RunsVector | ext/smartcard_pcsc/pcsc_multi_strings.c:10-17 | "ab\0c\0\0d" decodes to ["ab", "c"], and a leading NUL decodes to nothing |
| PcscMultiStrings.BufferLength | ext/smartcard_pcsc/pcsc_multi_strings.c:49-54 | the buffer holds at least the trailing NUL |
| PcscMultiStrings.ComputeBufferLength | ext/smartcard_pcsc/pcsc_multi_strings.c:47-54 | fails exactly when an element is not a string; otherwise 1 + Σ(len+1) |
| PcscMultiStrings.Memcpy | ext/smartcard_pcsc/pcsc_multi_strings.c:60 | the buffer becomes the splice of the string at the offset |
| PcscMultiStrings.CopyAndMark | ext/smartcard_pcsc/pcsc_multi_strings.c:60-61 | the string is spliced in and then its first octet is overwritten with NUL |
| PcscMultiStrings.Concatenate | ext/smartcard_pcsc/pcsc_multi_strings.c:57-64 | the concatenation loop fills the uninitialised buffer as FillAsWritten says |
| PcscMultiStrings.RubyStringsToMultistring | ext/smartcard_pcsc/pcsc_multi_strings.c:25-70 | the encoder returns EncodeAsWritten's result for nil, false, a string, an array and any other value |
| PcscMultiStrings.FillCorrectedLayout | ext/smartcard_pcsc/pcsc_multi_strings.c:58-64 | with the NUL written after each string, the buffer is each string and a NUL, then a NUL |
| PcscMultiStrings.CorrectedRoundTrip | ext/smartcard_pcsc/pcsc_multi_strings.c:45-67 | with that correction an array of proper names encodes to a buffer that decodes back to the names |
| PcscMultiStrings.AsWrittenStartsWithNul | ext/smartcard_pcsc/pcsc_multi_strings.c:60-61 | as written, the buffer's first octet is NUL |
| PcscMultiStrings.AsWrittenLosesNames | ext/smartcard_pcsc/pcsc_multi_strings.c:58-63 | as written, every array of strings encodes to a buffer that decodes to no names |
| PcscMultiStrings.AsWrittenBuffer | ext/smartcard_pcsc/pcsc_multi_strings.c:49-64 | as written, the buffer is 1 + Σ(len+1) octets and ends in NUL |
| PcscMultiStrings.AsWrittenVector | ext/smartcard_pcsc/pcsc_multi_strings.c:58-64 | ["ab"] encodes as written to NUL, 'b', an uninitialised octet, NUL; corrected to "ab\0\0" |
| PcscMultiStrings.SingleStringRoundTrip | ext/smartcard_pcsc/pcsc_multi_strings.c:36-43 | a single string s encodes to s followed by two NULs, which decodes back to [s] |
| PcscMultiStrings.EncoderEdgeCases | ext/smartcard_pcsc/pcsc_multi_strings.c:30-69 | nil and false give a NULL buffer with success; an array with a non-string element and any other value fail |
| PcscContext.DecodeMultiString | lib/smartcard/pcsc/context.rb:139-152 | the each_byte loop returns Decoded's result |
| PcscContext.DecodedProper | lib/smartcard/pcsc/context.rb:143-148 | every decoded string is non-empty and NUL-free |
| PcscContext.DecodedGathers | lib/smartcard/pcsc/context.rb:147-148 | NUL-free octets are appended to the string being gathered |
| PcscContext.DecodedCons | lib/smartcard/pcsc/context.rb:143-146 | a NUL after a non-empty string ends that string |
| PcscContext.TrailingRunDropped | lib/smartcard/pcsc/context.rb:142-151 | a trailing run without a NUL is dropped, where the C decoder keeps it |
| PcscContext.DecodedTerminated | lib/smartcard/pcsc/context.rb:139-152 | proper names, each followed by a NUL, then a NUL, decode to exactly those names |
| PcscContext.DecodedVector | lib/smartcard/pcsc/context.rb:139-152 | "ab\0c\0\0d\0" decodes to ["ab", "c"] and "ab\0cd" to ["ab"] |
| PcscContext.GroupsLayout | lib/smartcard/pcsc/context.rb:73 | the groups string is "\0\0" for no groups, otherwise each group and a NUL, then a NUL |
| PcscContext.GroupsRoundTrip | lib/smartcard/pcsc/context.rb:73 | decoding the groups string, by either decoder, gives back the groups, the empty list included |
| PcscContext.Context.constructor | lib/smartcard/pcsc/context.rb:21-27 | a new context holds the handle |
| PcscContext.Establish | lib/smartcard/pcsc/context.rb:21-27 | an error status raises that status; success yields a fresh context holding the handle |
| PcscContext.Context.Release | lib/smartcard/pcsc/context.rb:34-41 | without a handle, nothing happens. A successful release clears the handle. A failed one raises the status and keeps the handle |
| PcscContext.ReleaseTwice | lib/smartcard/pcsc/context.rb:34-41 | after a successful release, releasing again does nothing and the handle stays nil |
| ReaderStateQueries.LookupFrom | lib/smartcard/pcsc/reader_state_queries.rb:179-180 | a mask found for a name belongs to an entry with that name |
| ReaderStateQueries.ReverseLookupFrom | lib/smartcard/pcsc/reader_state_queries.rb:179 | when no name is found for an integer, no entry has it as mask |
| ReaderStateQueries.LookupFromAt | lib/smartcard/pcsc/reader_state_queries.rb:179-180 | with distinct names, every entry's name finds its mask |
| ReaderStateQueries.ElementValue | lib/smartcard/pcsc/reader_state_queries.rb:179-182 | an element fails only with the TypeError that Ruby 1.9's `state \|=` raises for a Symbol; an accepted integer contributes itself |
| ReaderStateQueries.PackedItems | lib/smartcard/pcsc/reader_state_queries.rb:176-185 | packing an Enumerable fails only with that Ruby 1.9 TypeError |
| ReaderStateQueries.ElementValueRuby18 | lib/smartcard/pcsc/reader_state_queries.rb:179-182 | under Ruby 1.8 an element the 1.9 reading accepts contributes the same bits; an unknown symbol, or an integer that names a mask, contributes the ID of the symbol involved |
| ReaderStateQueries.PackedItemsRuby18Agrees | lib/smartcard/pcsc/reader_state_queries.rb:176-185 | wherever Ruby 1.9 packs an Enumerable, Ruby 1.8 packs it to the same value, for any symbol IDs |
| ReaderStateQueries.UnknownSymbolPacks | lib/smartcard/pcsc/reader_state_queries.rb:179-182 | `pack_state([:bogus])` raises TypeError under Ruby 1.9 and gives the symbol's ID under Ruby 1.8 |
| ReaderStateQueries.Packed | lib/smartcard/pcsc/reader_state_queries.rb:175-188 | a single symbol packs exactly when the table has it, to its mask; the empty Enumerable packs to 0 |
| ReaderStateQueries.PackedAppend | lib/smartcard/pcsc/reader_state_queries.rb:176-185 | packing a concatenation succeeds exactly when both parts do, and ORs them |
| ReaderStateQueries.PackedCommutes | lib/smartcard/pcsc/reader_state_queries.rb:176-185 | the order in which the Enumerable yields its members does not change the result |
| ReaderStateQueries.PackState | lib/smartcard/pcsc/reader_state_queries.rb:175-188 | the `state \|=` loop returns Packed's result |
| ReaderStateQueries.UnpackState | lib/smartcard/pcsc/reader_state_queries.rb:194-205 | the `packed_state ^=` loop returns Unpacked's result |
| ReaderStateQueries.UnpackedShape | lib/smartcard/pcsc/reader_state_queries.rb:194-205 | only symbols with a nonzero mask are unpacked, and an integer member is nonzero and last |
| ReaderStateQueries.PackUnpackRoundTrip | lib/smartcard/pcsc/reader_state_queries.rb:175-205 | pack_state(unpack_state(x)) == x for every 32-bit x |
| ReaderStateQueries.UnpackedMembership | lib/smartcard/pcsc/reader_state_queries.rb:196-201 | with disjoint masks, a symbol is unpacked exactly when its nonzero mask lies inside the state |
| ReaderStateQueries.AllBitsVector | test/pcsc/reader_state_queries_test.rb:54-62 | 0xFFFFFFFF unpacks to a set holding every nonzero symbol and packs back to itself |
| ReaderStateQueries.TwoSymbolsVector | test/pcsc/reader_state_queries_test.rb:42-52 | two symbols pack to the OR of their masks, which unpacks to a set holding both |
| ReaderStateQueries.RubyAt | lib/smartcard/pcsc/reader_state_queries.rb:33 | Ruby's array index: from the front, from the back for negative indexes, nil outside |
| ReaderStateQueries.Query.constructor | lib/smartcard/pcsc/reader_state_queries.rb:22-25 | a query in the zero-filled buffer has zero states, an empty ATR and a NULL name |
| ReaderStateQueries.Query.CurrentState | lib/smartcard/pcsc/reader_state_queries.rb:91-93 | the unpacked current state packs back to the field |
| ReaderStateQueries.Query.EventState | lib/smartcard/pcsc/reader_state_queries.rb:112-114 | the unpacked event state packs back to the field |
| ReaderStateQueries.Query.SetCurrentState | lib/smartcard/pcsc/reader_state_queries.rb:102-104 | the current state becomes pack_state of the value, or stays when packing fails; nothing else changes |
| ReaderStateQueries.Query.SetEventState | lib/smartcard/pcsc/reader_state_queries.rb:123-125 | the event state becomes pack_state of the value, or stays when packing fails; nothing else changes |
| ReaderStateQueries.Query.Atr | lib/smartcard/pcsc/reader_state_queries.rb:138-140 | the ATR is the first atr_length octets of the buffer |
| ReaderStateQueries.Query.SetAtr | lib/smartcard/pcsc/reader_state_queries.rb:148-155 | above MAX_ATR_SIZE it raises ArgumentError and changes nothing; otherwise atr reads back exactly the octets written, NULs included |
| ReaderStateQueries.Query.ReaderName | lib/smartcard/pcsc/reader_state_queries.rb:160-162 | a NULL name cannot be read, and a name read has no NUL |
| ReaderStateQueries.Query.SetReaderName | lib/smartcard/pcsc/reader_state_queries.rb:167-170 | the name then reads back up to its first NUL, and the states and ATR are untouched |
| ReaderStateQueries.ChangedAmong | lib/smartcard/pcsc/reader_state_queries.rb:65-67 | exactly the queries whose event state holds :changed, in their order |
| ReaderStateQueries.ReaderStateQueries.constructor | lib/smartcard/pcsc/reader_state_queries.rb:21-27 | new(n) has length n, with n distinct zero-filled queries |
| ReaderStateQueries.ReaderStateQueries.Get | lib/smartcard/pcsc/reader_state_queries.rb:30-34 | a non-Numeric index raises TypeError and one at or past the length IndexError; negative indexes count from the end, and before the first element give nil |
| ReaderStateQueries.ReaderStateQueries.WithChanges | lib/smartcard/pcsc/reader_state_queries.rb:65-67 | with_changes returns, in order, exactly the queries whose event state holds :changed |
| ReaderStateQueries.ReaderStateQueries.AckChanges | lib/smartcard/pcsc/reader_state_queries.rb:50-52 | every current state becomes its event state, and nothing else changes |
| PcscReaderStates.Truncate | smartcard/ext/smartcard_pcsc/pcsc_reader_states.c:67 | a Float is cut toward zero: the result lies within one of the value, on the same side of zero |
| PcscReaderStates.IntToUint | smartcard/ext/smartcard_pcsc/pcsc_reader_states.c:67 | NUM2INT then the unsigned cast: accepted exactly on INT_MIN..INT_MAX, otherwise RangeError; 0..INT_MAX passes unchanged and negative values wrap by 2^32 |
| PcscReaderStates.Num2Uint | smartcard/ext/smartcard_pcsc/pcsc_reader_states.c:67 | NUM2UINT: an Integer goes through that range check, a Float through its truncation, and a non-number raises TypeError; every accepted value is below 2^32 |
| PcscReaderStates.Num2UintRoundTrip | smartcard/ext/smartcard_pcsc/pcsc_reader_states.c:67 | the signed reading of an accepted value is the Integer given, or the truncated Float |
| PcscReaderStates.ValidateIndex | smartcard/ext/smartcard_pcsc/pcsc_reader_states.c:63-74 | an accepted index is below the count; an index at or past the count raises IndexError, one outside a C int RangeError, a negative one IndexError (it wraps past any count up to 2^31), and a non-number TypeError |
| PcscReaderStates.FloatIndex | smartcard/ext/smartcard_pcsc/pcsc_reader_states.c:63-74 | a Float index selects the element its integer part names; a negative fraction is element 0 |
| PcscReaderStates.FloatIndexRange | smartcard/ext/smartcard_pcsc/pcsc_reader_states.c:63-74 | a Float index whose integer part lies outside a C int raises RangeError whatever the count |
| PcscReaderStates.Acknowledged | smartcard/ext/smartcard_pcsc/pcsc_reader_states.c:274-284 | acknowledging keeps the length and sets each current state to its event state |
| PcscReaderStates.AcknowledgedIdempotent | smartcard/ext/smartcard_pcsc/pcsc_reader_states.c:280-281 | acknowledging twice is acknowledging once; event states, names and ATRs are kept |
| PcscReaderStates.ReaderStates.constructor | smartcard/ext/smartcard_pcsc/pcsc_reader_states.c:43-61 | new(n) has n elements, each with no reader name and current state UNAWARE |
| PcscReaderStates.ReaderStates.CurrentStateOf | smartcard/ext/smartcard_pcsc/pcsc_reader_states.c:87-95 | succeeds exactly on a valid index, with that element's current state |
| PcscReaderStates.ReaderStates.EventStateOf | smartcard/ext/smartcard_pcsc/pcsc_reader_states.c:108-116 | succeeds exactly on a valid index, with that element's event state |
| PcscReaderStates.ReaderStates.AtrOf | smartcard/ext/smartcard_pcsc/pcsc_reader_states.c:172-180 | succeeds exactly on a valid index, with at most MAX_ATR_SIZE octets |
| PcscReaderStates.ReaderStates.ReaderNameOf | smartcard/ext/smartcard_pcsc/pcsc_reader_states.c:223-231 | an invalid index fails with the index error and a NULL name with ArgumentError; otherwise the result is the stored name up to its first NUL, which has no NUL |
| PcscReaderStates.ReaderStates.SetCurrentStateOf | smartcard/ext/smartcard_pcsc/pcsc_reader_states.c:129-138 | the index is checked first, then NUM2UINT of the value; either failure raises and changes nothing; otherwise only that element's current state changes, and it then reads back |
| PcscReaderStates.ReaderStates.SetEventStateOf | smartcard/ext/smartcard_pcsc/pcsc_reader_states.c:150-159 | the index is checked first, then NUM2UINT of the value; either failure raises and changes nothing; otherwise only that element's event state changes, and it then reads back |
| PcscReaderStates.ReaderStates.SetAtrOf | smartcard/ext/smartcard_pcsc/pcsc_reader_states.c:192-212 | a non-string is ignored. An ATR above MAX_ATR_SIZE raises ArgumentError and changes nothing. Otherwise only that element's ATR changes, and atr_of returns exactly those octets |
| PcscReaderStates.ReaderStates.SetReaderNameOf | smartcard/ext/smartcard_pcsc/pcsc_reader_states.c:243-264 | a non-string is ignored; otherwise only that element's name changes, and it reads back up to its first NUL |
| PcscReaderStates.ReaderStates.AcknowledgeEvents | smartcard/ext/smartcard_pcsc/pcsc_reader_states.c:274-284 | the array becomes Acknowledged of the old array |

## Left out

- Native PC/SC calls are not part of this model. This leaves out `SCardEstablishContext`, `SCardReleaseContext`, `SCardListReaders`, `SCardGetStatusChange` and the card calls, together with `Context#reader_groups`, `#readers`, `#valid?`, `#wait_for_status_change` and `#card`. The status each call returns is a parameter (`Status`).
- The FFI `CardState` table and `MAX_ATR_SIZE` come from generated bindings and PC/SC headers that are not part of this model. They are parameters: a (symbol, mask) sequence and a natural number.
- DWORDs are modelled as `bv32`.
- Ruby `Set` is modelled as a sequence in insertion order. Membership lemmas state the set view.
- FFI memory is modelled as fields and arrays. `FFI::MemoryPointer` aliasing, freeing the old reader name, and allocation failures (`ALLOC_N` returning NULL) are not.
- The `ReaderStates` allocator, `free` and `_PCSC_ReaderStates_lowlevel_get` (smartcard/ext/smartcard_pcsc/pcsc_reader_states.c:11-34, 311-326) are memory management and glue for the native calls.
- PcscReaderStates.Num2Uint: follows Ruby 1.8 on a 64-bit build, the headers this extension is written against (it reads `RSTRING(x)->len`). There NUM2UINT is NUM2INT cast to unsigned int. A Float is a real number, so NaN and the infinities are not modelled. Objects that convert through `to_int` count as non-numbers.
- PcscReaderStates.ReaderStates.constructor: `new` passes its count through NUM2UINT, and that conversion is not modelled; the count is a natural number.
- PcscReaderStates.ReaderStates.constructor: the C code leaves every field except the name and the current state uninitialised. The model gives the event state an arbitrary value and the ATR as empty.
- ReaderStateQueries.ElementValue: `NotAnInteger` is the TypeError that Ruby 1.9 raises for `state |= symbol`. Under Ruby 1.8, `Symbol#to_int` makes that OR succeed with the symbol's internal ID. That ID is a parameter of `ElementValueRuby18` and `PackedItemsRuby18`, modelled as a DWORD. `PackState` follows Ruby 1.9.
- ReaderStateQueries.ReaderStateQueries.Get: a Float index and Ruby's Numeric coercions are not modelled; an index is an integer or absent.
- `ReaderStateQueries#each` (lib/smartcard/pcsc/reader_state_queries.rb:37-39) is plain iteration over `queries`.
- In the multi-string encoder, the uninitialised octets that `ALLOC_N` returns are modelled by a `garbage` parameter.
- `recv_message` checks `raw_data.length == data_length` at lib/smartcard/iso/jcop_remote_protocol.rb:60. That check cannot fail once the data loop has ended, because each `recv` asks only for the missing octets; the model has no separate branch for it.
- Socket options, the `0` flag of `socket.send`, and partial sends are left out. A send delivers all its octets.
- The JCOP server, the JCOP transport, the PC/SC transport and the threads they start (jcop_remote_server.rb, jcop_remote_transport.rb, pcsc_transport.rb) are networking and are not part of this model.
- The two loops of `recv_message` are modelled as one `ReadFull` method called twice.
- `ENV['SCARD_PORT']` is a parameter (`Option<string>`).
- AutoConfigurator.ToI: follows Ruby 1.8's base-10 `String#to_i`. It skips leading white space and underscores, reads one sign and an optional `0d`, and then reads digits, allowing single underscores between them. Ruby hands a short remainder to C `strtoul`, which also accepts white space and a sign after the prefix. The model reads only digits there.
- Transport construction and `connect` are a predicate parameter: whether a configuration connects. `try_transport`'s `rescue Exception` is that predicate being false.
- Reading the CAP zip archive (lib/smartcard/gp/cap_loader.rb:20-22) is not part of this model. The archive is given as its entries' contents, in order.
- The `:header` key that test/gp/cap_loader_test.rb:23-27 expects has no code behind it.
- Ruby 1.8 `String#[]` returns integers; the CAP loader works on octet sequences.
- A record shorter than its 3-octet header is reported as an error. The source fails too: `unpack` of such a record gives nil, and `data[offset + 3, nil]` at lib/smartcard/gp/cap_loader.rb:27 then raises TypeError. The model does not name the Ruby exception.
- Des.Crypt: the key, IV and data rules follow the Ruby 1.8 OpenSSL binding, which is not part of this model. `key=` and `iv=` refuse values shorter than the cipher needs and use the leading octets of longer ones. `update` refuses an empty string. `final` with padding off refuses a partial block.
- OpenSSL's DES is an uninterpreted block-cipher parameter (`BlockCipher`), and `random_bytes` (lib/smartcard/gp/des.rb:21-23) draws from OpenSSL's generator and is left out.
- The BER encoders (`encode_tag`, `encode_length`, `encode_tlv`, `encode`) and `visit` that test/gp/asn1_ber_test.rb expects do not exist in the source.
- `map_value` (lib/smartcard/gp/asn1_ber.rb:86-89) returns its value unchanged, so the model inlines it.
- A Ruby `nil` read past the end of the BER data is modelled as a `Truncated` error.
- Ruby's silent truncation of `data[offset, length]` is kept.
- IsoCardMixin.Serialize: CLA, INS, P1, P2 and the data are Ruby integers with no range check, so they are `int`, and nothing bounds them to octets.
- IsoCardMixin.Deserialize: a reply shorter than two octets makes Ruby raise on nil arithmetic. The model reports `ShortResponse` instead of a particular Ruby exception.
- Ruby `false` is modelled only where the code distinguishes it from nil: the `RFalse` value of the multi-string encoder, and recv_message's `Closed` outcome.
- Exception classes and their messages are modelled only where the code builds the text: ApduError and iso_apdu!.

## Findings

| source | as written | input that shows it | evidently intended | confidence | as-written member | corrected member |
|---|---|---|---|---|---|---|
| lib/smartcard/gp/asn1_ber.rb:101-102 | a constructed TLV calls `decode_tlv_sequence`, which no file defines, so Ruby raises NoMethodError | the test's FCI vector `6F 10 84 08 A0 00 00 00 03 00 00 00 A5 04 9F 65 01 FF` | decode the value octets as a sequence of TLVs, giving the nested tree the test expects | high, not executed | Asn1Ber.AsWrittenVector | Asn1Ber.FciVector |
| lib/smartcard/gp/asn1_ber.rb:110-115 | `length` defaults to `data.length - offset` (a count) but is compared with the absolute offset, so decoding from a non-zero offset stops early | `03 14 15 84 01 AA 85 01 BB` from offset 3 yields only the first of two TLVs | stop at `offset + length` | medium, not executed | Asn1Ber.DecodeOffsetQuirk | Asn1Ber.DecodeFromChain |
| lib/smartcard/gp/des.rb:53 | with fewer than 8 data octets the first pass hands `crypt` the empty string, which `Cipher#update` refuses, so no MAC is produced | any 3-octet data, any IV | MAC algorithm 3 chained from the caller's IV for every length, the first pass skipped when it is empty | medium, not executed | Des.MacRetailShortData | Des.MacRetailCorrectedIsAlgorithm3 |
| ext/smartcard_pcsc/pcsc_multi_strings.c:61 | the NUL is written over each string's first octet, not after it, and the separator octets stay uninitialised | `["ab"]` encodes to `00 62 ?? 00`, which decodes to no strings | write the NUL at `buffer_length + string_length` | high, not executed | PcscMultiStrings.AsWrittenLosesNames | PcscMultiStrings.CorrectedRoundTrip |

The decoder uses the corrected `decode_tlv` (Asn1Ber.DecodeTlvSpec), so
nested TLVs decode. `decode` itself (Asn1Ber.Decode) keeps the comparison
as written. From offset 0, which is how the source calls it and how it
decodes constructed values, that comparison gives the same result as the
count reading.
