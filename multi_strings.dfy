/** The multi-string helpers of ext/smartcard_pcsc/pcsc_multi_strings.c:
    PC/SC lists reader and group names as "name1\0name2\0...\0\0". The
    decoder splits such a buffer; the encoder builds one from nil, a
    String or an Array of Strings. */
module PcscMultiStrings {
  import opened Wrappers
  import opened Bytes

  predicate NulFree(s: seq<byte>)
  {
    forall i :: 0 <= i < |s| ==> s[i] != 0
  }

  /** Every name non-empty and free of NUL bytes. */
  predicate ProperNames(ss: seq<seq<byte>>)
  {
    forall k :: 0 <= k < |ss| ==> ss[k] != [] && NulFree(ss[k])
  }

  /** The index of the first NUL at or after i, or the length when there
      is none. */
  function NulFrom(s: seq<byte>, i: nat): (j: nat)
    requires i <= |s|
    ensures i <= j <= |s| && (j < |s| ==> s[j] == 0)
    decreases |s| - i
  {
    if i == |s| || s[i] == 0 then i else NulFrom(s, i + 1)
  }

  /** No NUL comes before NulFrom. */
  lemma {:induction false} NulFromFirst(s: seq<byte>, i: nat)
    requires i <= |s|
    ensures forall m :: i <= m < NulFrom(s, i) ==> s[m] != 0
    decreases |s| - i
  {
    if i < |s| && s[i] != 0 {
      NulFromFirst(s, i + 1);
    }
  }

  /** NulFrom is the first NUL: any j with no NUL in [i, j) and a NUL (or
      the end) at j is it. */
  lemma {:induction false} NulFromIs(s: seq<byte>, i: nat, j: nat)
    requires i <= j <= |s|
    requires forall m :: i <= m < j ==> s[m] != 0
    requires j == |s| || s[j] == 0
    ensures NulFrom(s, i) == j
    decreases j - i
  {
    if i < j {
      NulFromIs(s, i + 1, j);
    }
  }

  // ---------------------------------------------------------------------
  // PCSC_Internal_multistring_to_ruby_array

  /** The names the decoder produces from offset i on: the maximal NUL-free
      runs in order, stopping at a NUL where a run would start or at the
      end; a run that reaches the end without a NUL is kept. After such a
      run the offset is one past the end. */
  function RunsFrom(s: seq<byte>, i: nat): seq<seq<byte>>
    decreases if i <= |s| then |s| - i + 1 else 0
  {
    if i >= |s| || s[i] == 0 then []
    else
      var j := NulFrom(s, i);
      [s[i..j]] + RunsFrom(s, j + 1)
  }

  /** The decoder on the first mstr_len bytes. */
  function Runs(s: seq<byte>): seq<seq<byte>>
  {
    RunsFrom(s, 0)
  }

  /** Every name the decoder returns is non-empty and NUL-free. */
  lemma {:induction false} RunsFromProper(s: seq<byte>, i: nat)
    ensures ProperNames(RunsFrom(s, i))
    decreases if i <= |s| then |s| - i + 1 else 0
  {
    if i < |s| && s[i] != 0 {
      var j := NulFrom(s, i);
      NulFromFirst(s, i);
      assert NulFree(s[i..j]);
      RunsFromProper(s, j + 1);
    }
  }

  lemma RunsProper(s: seq<byte>)
    ensures ProperNames(Runs(s))
  {
    RunsFromProper(s, 0);
  }

  /** The outer loop's invariant survives one run. */
  lemma OuterStep(s: seq<byte>, r: seq<seq<byte>>, start: nat, j: nat)
    requires start < |s| && s[start] != 0 && j == NulFrom(s, start)
    requires Runs(s) == r + RunsFrom(s, start)
    ensures Runs(s) == (r + [s[start..j]]) + RunsFrom(s, j + 1)
  {
    var rest := RunsFrom(s, j + 1);
    assert RunsFrom(s, start) == [s[start..j]] + rest;
    Associative(r, [s[start..j]], rest);
  }

  lemma Associative<T>(a: seq<T>, b: seq<T>, c: seq<T>)
    ensures a + (b + c) == (a + b) + c
  {
  }

  /** The inner loop of the decoder: from `start`, scan to the next NUL or
      to the end. */
  method ScanRun(s: seq<byte>, start: nat) returns (j: nat)
    requires start <= |s|
    ensures j == NulFrom(s, start)
  {
    j := start;
    while j < |s| && s[j] != 0
      invariant start <= j <= |s|
      invariant forall m :: start <= m < j ==> s[m] != 0
    {
      j := j + 1;
    }
    NulFromIs(s, start, j);
  }

  /** The C decoder: the outer loop starts a run (or stops at a NUL), the
      inner loop scans to the run's NUL. */
  method MultistringToArray(mstr: seq<byte>, mstrLen: nat) returns (r: seq<seq<byte>>)
    requires mstrLen <= |mstr|
    ensures r == Runs(mstr[..mstrLen])
  {
    var s := mstr[..mstrLen];
    r := [];
    var i := 0;
    while i < mstrLen
      invariant i <= mstrLen + 1
      invariant Runs(s) == r + RunsFrom(s, i)
      decreases mstrLen + 1 - i
    {
      if s[i] == 0 {
        break;
      }
      var start := i;
      var j := ScanRun(s, start);
      OuterStep(s, r, start, j);
      r := r + [s[start..j]];
      i := j + 1;
    }
  }

  // ---------------------------------------------------------------------
  // The layout PC/SC expects

  /** Each name followed by its NUL. */
  function Terminated(ss: seq<seq<byte>>): (r: seq<byte>)
  {
    if ss == [] then [] else ss[0] + [0] + Terminated(ss[1..])
  }

  /** A prefix moves the decoder's offsets and nothing else. */
  lemma {:induction false} RunsShift(p: seq<byte>, d: seq<byte>, i: nat)
    ensures RunsFrom(p + d, |p| + i) == RunsFrom(d, i)
    decreases if i <= |d| then |d| - i + 1 else 0
  {
    if i < |d| && d[i] != 0 {
      var j := NulFrom(d, i);
      RunsShiftHead(p, d, i);
      RunsShift(p, d, j + 1);
      RunsFromUnfold(d, i);
      RunsFromUnfold(p + d, |p| + i);
    } else if i < |d| {
      assert (p + d)[|p| + i] == d[i];
    }
  }

  /** One step of RunsFrom at a non-NUL byte. */
  lemma RunsFromUnfold(s: seq<byte>, i: nat)
    requires i < |s| && s[i] != 0
    ensures RunsFrom(s, i) == [s[i..NulFrom(s, i)]] + RunsFrom(s, NulFrom(s, i) + 1)
  {
  }

  lemma RunsShiftHead(p: seq<byte>, d: seq<byte>, i: nat)
    requires i < |d| && d[i] != 0
    ensures (p + d)[|p| + i] == d[i]
    ensures NulFrom(p + d, |p| + i) == |p| + NulFrom(d, i)
    ensures (p + d)[|p| + i..|p| + NulFrom(d, i)] == d[i..NulFrom(d, i)]
  {
    NulFromFirst(d, i);
    NulFromIs(p + d, |p| + i, |p| + NulFrom(d, i));
  }

  lemma RunsCons(s: seq<byte>, tail: seq<byte>)
    requires s != [] && NulFree(s)
    ensures Runs(s + [0] + tail) == [s] + Runs(tail)
  {
    var x := s + [0] + tail;
    NulFromIs(x, 0, |s|);
    assert x[0..|s|] == s;
    assert x == (s + [0]) + tail;
    RunsShift(s + [0], tail, 0);
  }

  /** The decoder reads back every list of proper names laid out with a
      NUL after each and one more at the end. */
  lemma {:induction false} RunsTerminated(ss: seq<seq<byte>>)
    requires ProperNames(ss)
    ensures Runs(Terminated(ss) + [0]) == ss
  {
    if ss != [] {
      assert ProperNames(ss[1..]) by {
        forall k | 0 <= k < |ss[1..]|
          ensures ss[1..][k] != [] && NulFree(ss[1..][k])
        {
          assert ss[1..][k] == ss[k + 1];
        }
      }
      RunsTerminated(ss[1..]);
      assert Terminated(ss) + [0] == ss[0] + [0] + (Terminated(ss[1..]) + [0]);
      RunsCons(ss[0], Terminated(ss[1..]) + [0]);
      assert [ss[0]] + ss[1..] == ss;
    }
  }

  // ---------------------------------------------------------------------
  // PCSC_Internal_ruby_strings_to_multistring

  /** The Ruby values the encoder distinguishes. */
  datatype RubyValue =
    | RNil
    | RFalse
    | RString(bytes: seq<byte>)
    | RArray(elements: seq<RubyValue>)
    | ROther

  /** The encoder's outcome: None when it returns 0, Some(None) for the
      NULL buffer, Some(Some(b)) for an allocated buffer. */
  type Encoded = Option<Option<seq<byte>>>

  predicate AllStrings(a: seq<RubyValue>)
  {
    forall k :: 0 <= k < |a| ==> a[k].RString?
  }

  function Strings(a: seq<RubyValue>): (r: seq<seq<byte>>)
    requires AllStrings(a)
    ensures |r| == |a| && forall k :: 0 <= k < |a| ==> r[k] == a[k].bytes
  {
    seq(|a|, k requires 0 <= k < |a| => a[k].bytes)
  }

  /** buffer_length: one byte per string character and separator, and one
      for the final NUL. */
  function BufferLength(ss: seq<seq<byte>>): (r: nat)
    ensures r >= 1
  {
    if ss == [] then 1 else |ss[0]| + 1 + BufferLength(ss[1..])
  }

  lemma {:induction false} BufferLengthSnoc(ss: seq<seq<byte>>, s: seq<byte>)
    ensures BufferLength(ss + [s]) == BufferLength(ss) + |s| + 1
  {
    if ss != [] {
      assert (ss + [s])[1..] == ss[1..] + [s];
      BufferLengthSnoc(ss[1..], s);
    }
  }

  /** The n bytes ALLOC_N returns: the code never clears them, so their
      values are whatever `garbage` says. */
  function Allocated(n: nat, garbage: nat -> byte): (r: seq<byte>)
    ensures |r| == n && forall k :: 0 <= k < n ==> r[k] == garbage(k)
  {
    seq(n, k requires 0 <= k < n => garbage(k))
  }

  /** buf with s copied in at offset o (the memcpy). */
  function Splice(buf: seq<byte>, o: nat, s: seq<byte>): (r: seq<byte>)
    requires o + |s| <= |buf|
    ensures |r| == |buf|
  {
    buf[..o] + s + buf[o + |s|..]
  }

  /** The concatenation loop AS WRITTEN: each string is copied in at the
      running offset, then the NUL is written at that same offset, over
      the string's first byte; the byte after the string is never written. */
  function FillAsWritten(buf: seq<byte>, ss: seq<seq<byte>>, o: nat): (r: seq<byte>)
    requires o + BufferLength(ss) <= |buf|
    ensures |r| == |buf|
    decreases |ss|
  {
    if ss == [] then buf[o := 0]
    else FillAsWritten(Splice(buf, o, ss[0])[o := 0], ss[1..], o + |ss[0]| + 1)
  }

  /** The evidently intended loop: the NUL goes after the string. */
  function FillCorrected(buf: seq<byte>, ss: seq<seq<byte>>, o: nat): (r: seq<byte>)
    requires o + BufferLength(ss) <= |buf|
    ensures |r| == |buf|
    decreases |ss|
  {
    if ss == [] then buf[o := 0]
    else FillCorrected(Splice(buf, o, ss[0])[o + |ss[0]| := 0], ss[1..], o + |ss[0]| + 1)
  }

  /** The encoder as a function, AS WRITTEN. */
  function EncodeAsWritten(v: RubyValue, garbage: nat -> byte): (r: Encoded)
  {
    match v
    case RNil => Some(None)
    case RFalse => Some(None)
    case RString(s) => Some(Some(s + [0, 0]))
    case RArray(a) =>
      if !AllStrings(a) then None
      else
        var ss := Strings(a);
        Some(Some(FillAsWritten(Allocated(BufferLength(ss), garbage), ss, 0)))
    case ROther => None
  }

  /** The encoder with the NUL written after each string. */
  function EncodeCorrected(v: RubyValue, garbage: nat -> byte): (r: Encoded)
  {
    match v
    case RNil => Some(None)
    case RFalse => Some(None)
    case RString(s) => Some(Some(s + [0, 0]))
    case RArray(a) =>
      if !AllStrings(a) then None
      else
        var ss := Strings(a);
        Some(Some(FillCorrected(Allocated(BufferLength(ss), garbage), ss, 0)))
    case ROther => None
  }

  /** The first loop: every element must be a String; the buffer length
      is 1 + sum(len + 1). */
  method ComputeBufferLength(a: seq<RubyValue>) returns (r: Option<nat>)
    ensures r.None? <==> !AllStrings(a)
    ensures r.Some? ==> AllStrings(a) && r.value == BufferLength(Strings(a))
  {
    var bufferLength := 1;
    var i := 0;
    while i < |a|
      invariant 0 <= i <= |a|
      invariant AllStrings(a[..i])
      invariant bufferLength == BufferLength(Strings(a[..i]))
    {
      if !a[i].RString? {
        return None;
      }
      assert a[..i + 1] == a[..i] + [a[i]];
      assert Strings(a[..i + 1]) == Strings(a[..i]) + [a[i].bytes];
      BufferLengthSnoc(Strings(a[..i]), a[i].bytes);
      bufferLength := bufferLength + |a[i].bytes| + 1;
      i := i + 1;
    }
    assert a[..i] == a;
    return Some(bufferLength);
  }

  /** memcpy(buffer + o, s, |s|). */
  method Memcpy(buffer: array<byte>, o: nat, s: seq<byte>)
    requires o + |s| <= buffer.Length
    modifies buffer
    ensures buffer[..] == Splice(old(buffer[..]), o, s)
  {
    forall k | 0 <= k < |s| {
      buffer[o + k] := s[k];
    }
  }

  /** The body of the concatenation loop, as written: the memcpy, then
      the NUL at the string's own offset. */
  method CopyAndMark(buffer: array<byte>, o: nat, s: seq<byte>)
    requires o + |s| < buffer.Length
    modifies buffer
    ensures buffer[..] == Splice(old(buffer[..]), o, s)[o := 0]
  {
    Memcpy(buffer, o, s);
    buffer[o] := 0;
  }

  /** The concatenation loop, as written, over a buffer of the computed
      length: `buffer[buffer_length] = '\0'` comes before the offset
      advances. */
  method Concatenate(ss: seq<seq<byte>>, garbage: nat -> byte) returns (r: seq<byte>)
    ensures r == FillAsWritten(Allocated(BufferLength(ss), garbage), ss, 0)
  {
    var buffer := new byte[BufferLength(ss)](k requires 0 <= k => garbage(k));
    ghost var goal := FillAsWritten(Allocated(BufferLength(ss), garbage), ss, 0);
    assert buffer[..] == Allocated(BufferLength(ss), garbage);
    var o: nat := 0;
    var i := 0;
    ghost var contents := buffer[..];
    while i < |ss|
      invariant 0 <= i <= |ss|
      invariant o + BufferLength(ss[i..]) == buffer.Length == |contents|
      invariant contents == buffer[..]
      invariant goal == FillAsWritten(contents, ss[i..], o)
      modifies buffer
    {
      FillStep(contents, ss, i, o);
      var s := ss[i];
      CopyAndMark(buffer, o, s);
      contents := Splice(contents, o, s)[o := 0];
      o := o + |s| + 1;
      i := i + 1;
    }
    buffer[o] := 0;
    r := buffer[..];
  }

  /** One pass of the concatenation loop, as written. */
  lemma FillStep(buf: seq<byte>, ss: seq<seq<byte>>, i: nat, o: nat)
    requires i < |ss| && o + BufferLength(ss[i..]) <= |buf|
    ensures o + |ss[i]| + 1 + BufferLength(ss[i + 1..]) == o + BufferLength(ss[i..])
    ensures FillAsWritten(buf, ss[i..], o)
         == FillAsWritten(Splice(buf, o, ss[i])[o := 0], ss[i + 1..], o + |ss[i]| + 1)
  {
    assert ss[i..][0] == ss[i] && ss[i..][1..] == ss[i + 1..];
  }

  /** The C encoder: nil and false give NULL, a String gets two NULs, an
      Array is checked and measured, then concatenated; anything else
      fails. */
  method RubyStringsToMultistring(v: RubyValue, garbage: nat -> byte) returns (r: Encoded)
    ensures r == EncodeAsWritten(v, garbage)
  {
    match v {
      case RNil => return Some(None);
      case RFalse => return Some(None);
      case RString(s) => return Some(Some(s + [0, 0]));
      case ROther => return None;
      case RArray(a) =>
        var length := ComputeBufferLength(a);
        if length.None? {
          return None;
        }
        var buffer := Concatenate(Strings(a), garbage);
        return Some(Some(buffer));
    }
  }

  /** The copy of s at o, then the NUL right after it. */
  lemma SpliceMarked(buf: seq<byte>, o: nat, s: seq<byte>)
    requires o + |s| < |buf|
    ensures Splice(buf, o, s)[o + |s| := 0][..o + |s| + 1] == buf[..o] + s + [0]
  {
    var next := Splice(buf, o, s)[o + |s| := 0];
    forall j | 0 <= j < o + |s| + 1
      ensures next[..o + |s| + 1][j] == (buf[..o] + s + [0])[j]
    {
      if j < o {
      } else if j < o + |s| {
      }
    }
  }

  /** What the corrected loop lays out: every string and its NUL, then the
      final NUL, whatever the allocator returned. */
  lemma {:induction false} FillCorrectedLayout(buf: seq<byte>, ss: seq<seq<byte>>, o: nat)
    requires o + BufferLength(ss) == |buf|
    ensures FillCorrected(buf, ss, o) == buf[..o] + Terminated(ss) + [0]
    decreases |ss|
  {
    if ss == [] {
      assert buf[o := 0] == buf[..o] + [0];
    } else {
      var s := ss[0];
      var next := Splice(buf, o, s)[o + |s| := 0];
      SpliceMarked(buf, o, s);
      FillCorrectedLayout(next, ss[1..], o + |s| + 1);
      assert next[..o + |s| + 1] + Terminated(ss[1..]) + [0] == buf[..o] + Terminated(ss) + [0];
    }
  }

  /** Corrected: decoding the encoding of an Array of proper names gives
      the names back, whatever the allocator returned. */
  lemma CorrectedRoundTrip(a: seq<RubyValue>, garbage: nat -> byte)
    requires AllStrings(a) && ProperNames(Strings(a))
    ensures EncodeCorrected(RArray(a), garbage).Some? && EncodeCorrected(RArray(a), garbage).value.Some?
    ensures Runs(EncodeCorrected(RArray(a), garbage).value.value) == Strings(a)
  {
    var ss := Strings(a);
    var buf := Allocated(BufferLength(ss), garbage);
    assert EncodeCorrected(RArray(a), garbage) == Some(Some(FillCorrected(buf, ss, 0)));
    FillCorrectedLayout(buf, ss, 0);
    assert buf[..0] + Terminated(ss) + [0] == Terminated(ss) + [0];
    RunsTerminated(ss);
  }

  /** AS WRITTEN: an Array's buffer always starts with a NUL, so the
      decoder reads no names back at all, whatever the strings. */
  lemma AsWrittenStartsWithNul(buf: seq<byte>, ss: seq<seq<byte>>, o: nat)
    requires o + BufferLength(ss) <= |buf|
    ensures FillAsWritten(buf, ss, o)[o] == 0
  {
    if ss != [] {
      var s := ss[0];
      var next := Splice(buf, o, s)[o := 0];
      FillAsWrittenKeeps(next, ss[1..], o + |s| + 1, o);
    }
  }

  lemma {:induction false} FillAsWrittenKeeps(buf: seq<byte>, ss: seq<seq<byte>>, o: nat, j: nat)
    requires o + BufferLength(ss) <= |buf| && j < o
    ensures FillAsWritten(buf, ss, o)[j] == buf[j]
    decreases |ss|
  {
    if ss != [] {
      var s := ss[0];
      var next := Splice(buf, o, s)[o := 0];
      FillAsWrittenKeeps(next, ss[1..], o + |s| + 1, j);
    }
  }

  lemma AsWrittenLosesNames(a: seq<RubyValue>, garbage: nat -> byte)
    requires AllStrings(a)
    ensures EncodeAsWritten(RArray(a), garbage).Some? && EncodeAsWritten(RArray(a), garbage).value.Some?
    ensures Runs(EncodeAsWritten(RArray(a), garbage).value.value) == []
  {
    var ss := Strings(a);
    AsWrittenStartsWithNul(Allocated(BufferLength(ss), garbage), ss, 0);
  }

  lemma {:induction false} FillAsWrittenLast(buf: seq<byte>, ss: seq<seq<byte>>, o: nat)
    requires o + BufferLength(ss) == |buf|
    ensures FillAsWritten(buf, ss, o)[|buf| - 1] == 0
    decreases |ss|
  {
    if ss != [] {
      var s := ss[0];
      FillAsWrittenLast(Splice(buf, o, s)[o := 0], ss[1..], o + |s| + 1);
    }
  }

  /** An Array's buffer is 1 + sum(len + 1) bytes long and ends in a NUL. */
  lemma AsWrittenBuffer(a: seq<RubyValue>, garbage: nat -> byte)
    requires AllStrings(a)
    ensures EncodeAsWritten(RArray(a), garbage).Some? && EncodeAsWritten(RArray(a), garbage).value.Some?
    ensures var b := EncodeAsWritten(RArray(a), garbage).value.value;
      |b| == BufferLength(Strings(a)) && b[|b| - 1] == 0
  {
    var ss := Strings(a);
    FillAsWrittenLast(Allocated(BufferLength(ss), garbage), ss, 0);
  }

  /** The counterexample: ["ab"] is encoded as 00 'b' ? 00, not "ab\0\0". */
  lemma AsWrittenVector(garbage: nat -> byte)
    ensures EncodeAsWritten(RArray([RString([0x61, 0x62])]), garbage) == Some(Some([0, 0x62, garbage(2), 0]))
    ensures EncodeCorrected(RArray([RString([0x61, 0x62])]), garbage) == Some(Some([0x61, 0x62, 0, 0]))
  {
    var ss := Strings([RString([0x61, 0x62])]);
    assert ss == [[0x61, 0x62]];
    assert ss[1..] == [];
    var u := Allocated(4, garbage);
    assert BufferLength(ss) == 4;
    assert Splice(u, 0, [0x61, 0x62]) == [0x61, 0x62, garbage(2), garbage(3)];
    var written := Splice(u, 0, [0x61, 0x62])[0 := 0];
    assert FillAsWritten(u, ss, 0) == FillAsWritten(written, [], 3) == written[3 := 0];
    assert written[3 := 0] == [0, 0x62, garbage(2), 0];
    var intended := Splice(u, 0, [0x61, 0x62])[2 := 0];
    assert FillCorrected(u, ss, 0) == FillCorrected(intended, [], 3) == intended[3 := 0];
    assert intended[3 := 0] == [0x61, 0x62, 0, 0];
  }

  /** "ab\0c\0\0d": the decoder stops at the second NUL in a row. */
  lemma RunsVector()
    ensures Runs([0x61, 0x62, 0, 0x63, 0, 0, 0x64]) == [[0x61, 0x62], [0x63]]
    ensures Runs([0, 0x61]) == []
  {
    var s: seq<byte> := [0x61, 0x62, 0, 0x63, 0, 0, 0x64];
    NulFromIs(s, 0, 2);
    NulFromIs(s, 3, 4);
    assert s[0..2] == [0x61, 0x62] && s[3..4] == [0x63];
  }

  /** A single String s becomes s followed by two NULs; the decoder reads
      s back when it is a proper name. */
  lemma SingleStringRoundTrip(s: seq<byte>, garbage: nat -> byte)
    requires s != [] && NulFree(s)
    ensures EncodeAsWritten(RString(s), garbage) == Some(Some(s + [0, 0]))
    ensures Runs(s + [0, 0]) == [s]
  {
    RunsCons(s, [0]);
    assert s + [0] + [0] == s + [0, 0];
  }

  /** nil and false give the NULL buffer; an Array holding a non-String
      and any other value fail. */
  lemma EncoderEdgeCases(a: seq<RubyValue>, garbage: nat -> byte)
    requires !AllStrings(a)
    ensures EncodeAsWritten(RNil, garbage) == Some(None) && EncodeAsWritten(RFalse, garbage) == Some(None)
    ensures EncodeAsWritten(RArray(a), garbage).None? && EncodeAsWritten(ROther, garbage).None?
  {
  }
}
