/** The parts of Smartcard::PCSC::Context (lib/smartcard/pcsc/context.rb)
    that do not call into PC/SC: the Ruby multi-string decoder, the groups
    string handed to SCardListReaders, and the rule that clears the handle
    on release. */
module PcscContext {
  import opened Wrappers
  import opened Bytes
  import opened PcscMultiStrings

  // ---------------------------------------------------------------------
  // Context.decode_multi_string

  /** The names the each_byte loop still produces, given the bytes left
      and the string gathered so far: a NUL ends the gathered string, or
      ends the loop when nothing was gathered; bytes gathered after the
      last NUL are lost. */
  function DecodedFrom(s: seq<byte>, next: seq<byte>): seq<seq<byte>>
  {
    if s == [] then []
    else if s[0] == 0 then
      if next == [] then [] else [next] + DecodedFrom(s[1..], [])
    else DecodedFrom(s[1..], next + [s[0]])
  }

  /** decode_multi_string over the whole buffer. */
  function Decoded(s: seq<byte>): seq<seq<byte>>
  {
    DecodedFrom(s, [])
  }

  method DecodeMultiString(stringsBytes: seq<byte>) returns (strings: seq<seq<byte>>)
    ensures strings == Decoded(stringsBytes)
  {
    strings := [];
    var nextString: seq<byte> := [];
    var i := 0;
    while i < |stringsBytes|
      invariant 0 <= i <= |stringsBytes|
      invariant Decoded(stringsBytes) == strings + DecodedFrom(stringsBytes[i..], nextString)
    {
      var b := stringsBytes[i];
      assert stringsBytes[i..][0] == b && stringsBytes[i..][1..] == stringsBytes[i + 1..];
      if b == 0 {
        if nextString == [] {
          break;
        }
        strings := strings + [nextString];
        nextString := [];
      } else {
        nextString := nextString + [b];
      }
      i := i + 1;
    }
  }

  /** Every name is non-empty and NUL-free. */
  lemma {:induction false} DecodedFromProper(s: seq<byte>, next: seq<byte>)
    requires NulFree(next)
    ensures ProperNames(DecodedFrom(s, next))
    decreases |s|
  {
    if s != [] {
      if s[0] == 0 {
        if next != [] {
          DecodedFromProper(s[1..], []);
        }
      } else {
        assert NulFree(next + [s[0]]);
        DecodedFromProper(s[1..], next + [s[0]]);
      }
    }
  }

  lemma DecodedProper(s: seq<byte>)
    ensures ProperNames(Decoded(s))
  {
    DecodedFromProper(s, []);
  }

  /** NUL-free bytes are gathered into the current string. */
  lemma {:induction false} DecodedGathers(x: seq<byte>, tail: seq<byte>, next: seq<byte>)
    requires NulFree(x)
    ensures DecodedFrom(x + tail, next) == DecodedFrom(tail, next + x)
    decreases |x|
  {
    if x == [] {
      assert x + tail == tail && next + x == next;
    } else {
      assert (x + tail)[0] == x[0] && (x + tail)[1..] == x[1..] + tail;
      assert NulFree(x[1..]);
      DecodedGathers(x[1..], tail, next + [x[0]]);
      assert next + [x[0]] + x[1..] == next + x;
    }
  }

  /** A run with no NUL after it is dropped, where the C decoder in
      pcsc_multi_strings.c keeps it. */
  lemma TrailingRunDropped(x: seq<byte>)
    requires x != [] && NulFree(x)
    ensures Decoded(x) == []
    ensures Runs(x) == [x]
  {
    DecodedGathers(x, [], []);
    assert x + [] == x;
    assert DecodedFrom([], x) == [];
    NulFromIs(x, 0, |x|);
    RunsFromUnfold(x, 0);
    assert x[0..|x|] == x;
    assert RunsFrom(x, |x| + 1) == [];
  }

  /** A NUL after a non-empty name ends that name. */
  lemma DecodedCons(x: seq<byte>, tail: seq<byte>)
    requires x != [] && NulFree(x)
    ensures Decoded(x + [0] + tail) == [x] + Decoded(tail)
  {
    DecodedGathers(x, [0] + tail, []);
    assert x + [0] + tail == x + ([0] + tail);
    assert [] + x == x;
    assert ([0] + tail)[0] == 0 && ([0] + tail)[1..] == tail;
    assert DecodedFrom([0] + tail, x) == [x] + DecodedFrom(tail, []);
  }

  /** Proper names, each followed by a NUL, then one more NUL, decode to
      the names. */
  lemma {:induction false} DecodedTerminated(ss: seq<seq<byte>>)
    requires ProperNames(ss)
    ensures Decoded(Terminated(ss) + [0]) == ss
  {
    if ss != [] {
      assert ProperNames(ss[1..]) by {
        forall k | 0 <= k < |ss[1..]|
          ensures ss[1..][k] != [] && NulFree(ss[1..][k])
        {
          assert ss[1..][k] == ss[k + 1];
        }
      }
      DecodedTerminated(ss[1..]);
      assert Terminated(ss) + [0] == ss[0] + [0] + (Terminated(ss[1..]) + [0]);
      DecodedCons(ss[0], Terminated(ss[1..]) + [0]);
      assert [ss[0]] + ss[1..] == ss;
    }
  }

  /** "ab\0c\0\0d\0" decodes to ["ab", "c"]; "ab\0cd" to ["ab"]. */
  lemma DecodedVector()
    ensures Decoded([0x61, 0x62, 0, 0x63, 0, 0, 0x64, 0]) == [[0x61, 0x62], [0x63]]
    ensures Decoded([0x61, 0x62, 0, 0x63, 0x64]) == [[0x61, 0x62]]
  {
    DecodedCons([0x61, 0x62], [0x63, 0, 0, 0x64, 0]);
    DecodedCons([0x63], [0, 0x64, 0]);
    assert [0x61, 0x62] + [0] + [0x63, 0, 0, 0x64, 0] == [0x61, 0x62, 0, 0x63, 0, 0, 0x64, 0];
    assert [0x63] + [0] + [0, 0x64, 0] == [0x63, 0, 0, 0x64, 0];
    DecodedCons([0x61, 0x62], [0x63, 0x64]);
    assert [0x61, 0x62] + [0] + [0x63, 0x64] == [0x61, 0x62, 0, 0x63, 0x64];
    TrailingRunDropped([0x63, 0x64]);
  }

  // ---------------------------------------------------------------------
  // The groups string of Context#readers

  /** Array#join("\0"). */
  function Join(groups: seq<seq<byte>>): seq<byte>
  {
    if groups == [] then []
    else if |groups| == 1 then groups[0]
    else groups[0] + [0] + Join(groups[1..])
  }

  /** groups.join("\0") + "\0\0". */
  function GroupsString(groups: seq<seq<byte>>): (r: seq<byte>)
  {
    Join(groups) + [0, 0]
  }

  lemma {:induction false} JoinTerminated(groups: seq<seq<byte>>)
    requires groups != []
    ensures Join(groups) + [0] == Terminated(groups)
  {
    if |groups| == 1 {
      assert groups[1..] == [];
    } else {
      JoinTerminated(groups[1..]);
    }
  }

  /** The groups string is the PC/SC layout: with no groups it is "\0\0",
      otherwise each group and a NUL, then a NUL. */
  lemma GroupsLayout(groups: seq<seq<byte>>)
    ensures GroupsString(groups) == if groups == [] then [0, 0] else Terminated(groups) + [0]
  {
    if groups != [] {
      JoinTerminated(groups);
      assert Join(groups) + [0, 0] == Join(groups) + [0] + [0];
    }
  }

  /** Decoding the groups string gives the groups back, for any list of
      non-empty NUL-free groups, the empty list included; so does the C
      decoder. */
  lemma GroupsRoundTrip(groups: seq<seq<byte>>)
    requires ProperNames(groups)
    ensures Decoded(GroupsString(groups)) == groups
    ensures Runs(GroupsString(groups)) == groups
  {
    GroupsLayout(groups);
    if groups != [] {
      DecodedTerminated(groups);
      RunsTerminated(groups);
    }
  }

  // ---------------------------------------------------------------------
  // Context#initialize and Context#release

  /** What a PC/SC call returned: :success or an error status. */
  datatype Status = StatusSuccess | StatusError(code: nat)

  /** What release did: returned nil (no handle), returned self (released),
      or raised Smartcard::PCSC::Exception with the status. */
  datatype ReleaseOutcome = NotHeld | Released | Raised(status: Status)

  class Context {
    /** @_handle: the SCARDCONTEXT, nil once released. */
    var handle: Option<nat>

    /** initialize when SCardEstablishContext succeeded with `h`. */
    constructor(h: nat)
      ensures handle == Some(h)
    {
      handle := Some(h);
    }

    /** release. `status` is what SCardReleaseContext returns for the
        handle, which this model does not compute. */
    method Release(status: Status) returns (r: ReleaseOutcome)
      modifies this
      ensures old(handle).None? ==> r == NotHeld && handle == old(handle)
      ensures old(handle).Some? && status == StatusSuccess ==> r == Released && handle.None?
      ensures old(handle).Some? && status != StatusSuccess ==> r == Raised(status) && handle == old(handle)
    {
      if handle.None? {
        return NotHeld;
      }
      if status != StatusSuccess {
        return Raised(status);
      }
      handle := None;
      return Released;
    }
  }

  /** Context.new: an error status raises, success yields a context
      holding the handle. */
  method Establish(status: Status, h: nat) returns (r: Result<Context, Status>)
    ensures r.Failure? <==> status != StatusSuccess
    ensures r.Failure? ==> r.error == status
    ensures r.Success? ==> fresh(r.value) && r.value.handle == Some(h)
  {
    if status != StatusSuccess {
      return Failure(status);
    }
    var c := new Context(h);
    return Success(c);
  }

  /** Releasing twice: the second call does nothing, whatever PC/SC would
      have said, and the handle stays nil. */
  method ReleaseTwice(c: Context, first: Status, second: Status) returns (r: ReleaseOutcome)
    requires c.handle.Some? && first == StatusSuccess
    modifies c
    ensures r == NotHeld && c.handle.None?
  {
    var released := c.Release(first);
    assert released == Released;
    r := c.Release(second);
  }
}
