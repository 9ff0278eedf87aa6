/** The GlobalPlatform card commands of lib/smartcard/gp/gp_card_mixin.rb:
    SELECT by AID (GlobalPlatform Card Specification 2.2, section 11.9)
    through iso_apdu!, and install_applet, which always raises. */
module GpCardMixin {
  import opened Wrappers
  import opened Bytes
  import opened IsoCardMixin

  /** The APDU hash of select_application: INS A4, P1 04, P2 00, the AID as data. */
  function SelectCommand(aid: seq<int>): Command
  {
    Command(None, Some(0xA4), Some(0x04), Some(0x00), None, Some(aid))
  }

  /** The SELECT command on the wire: 00 A4 04 00 Lc AID. */
  lemma SelectWire(aid: seq<int>)
    ensures Serialize(SelectCommand(aid)) == Success([0x00, 0xA4, 0x04, 0x00, |aid|] + aid)
  {
    assert [0x00, 0xA4] + [0x04, 0x00] + [|aid|] + aid == [0x00, 0xA4, 0x04, 0x00, |aid|] + aid;
  }

  /** select_application: the card's response data when it answers 90 00,
      and a failure carrying the status word otherwise. */
  function SelectApplication(exchange: seq<int> -> seq<byte>, aid: seq<int>): (r: Result<seq<byte>, IsoError>)
    ensures var reply := exchange([0x00, 0xA4, 0x04, 0x00, |aid|] + aid);
      && (r.Success? <==> |reply| >= 2 && reply[|reply| - 2] == 0x90 && reply[|reply| - 1] == 0x00)
      && (r.Success? ==> r.value == reply[..|reply| - 2])
      && (|reply| >= 2 && !(reply[|reply| - 2] == 0x90 && reply[|reply| - 1] == 0x00) ==>
            r.Failure? && r.error.ErrorStatus? && r.error.status == reply[|reply| - 2] as int * 256 + reply[|reply| - 1])
  {
    SelectWire(aid);
    IsoApduBang(exchange, SelectCommand(aid))
  }

  /** The vector of the mixin's test: AID 19 83 12 29 10 and a reply 90 00. */
  lemma SelectVector(exchange: seq<int> -> seq<byte>)
    requires exchange([0x00, 0xA4, 0x04, 0x00, 0x05, 0x19, 0x83, 0x12, 0x29, 0x10]) == [0x90, 0x00]
    ensures SelectApplication(exchange, [0x19, 0x83, 0x12, 0x29, 0x10]) == Success([])
  {
    assert [0x00, 0xA4, 0x04, 0x00, 5] + [0x19, 0x83, 0x12, 0x29, 0x10]
        == [0x00, 0xA4, 0x04, 0x00, 0x05, 0x19, 0x83, 0x12, 0x29, 0x10];
  }

  datatype GpError = NotImplemented

  /** install_applet raises for every CAP file. */
  function InstallApplet(capContents: seq<byte>): (r: Result<(), GpError>)
    ensures r.Failure?
  {
    Failure(NotImplemented)
  }
}
