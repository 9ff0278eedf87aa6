/** The native reader-state container of
    smartcard/ext/smartcard_pcsc/pcsc_reader_states.c: a fixed array of
    SCARD_READERSTATE structures whose fields are read and written one
    element at a time by index. */
module PcscReaderStates {
  import opened Wrappers
  import opened Bytes

  /** A PC/SC DWORD. */
  type Dword = bv32

  /** One SCARD_READERSTATE element: the reader name (NULL until set, the
      bytes copied in otherwise), dwCurrentState, dwEventState, and the
      first cbAtr bytes of rgbAtr. */
  datatype ReaderState = ReaderState(reader: Option<seq<byte>>, currentState: Dword, eventState: Dword, atr: seq<byte>)

  datatype AccessError =
    | TypeError      // the index is not a number
    | RangeError     // the index does not fit an unsigned int
    | IndexError     // the index is past the last element
    | ArgumentError  // the ATR is too long, or the reader name is NULL

  /** A Ruby argument as the native conversions see it: an Integer
      (Fixnum or Bignum), a Float, or any other object. */
  datatype Numeric = Integer(n: int) | Float(x: real) | NotNumeric

  const UintLimit: int := 0x1_0000_0000
  const IntMin: int := -0x8000_0000
  const IntMax: int := 0x7FFF_FFFF

  /** A real cut toward zero, as C's conversion of a double to long. */
  function Truncate(x: real): (t: int)
    ensures 0.0 <= x ==> 0 <= t && t as real <= x < t as real + 1.0
    ensures x < 0.0 ==> t <= 0 && t as real - 1.0 < x <= t as real
  {
    if x >= 0.0 then x.Floor else -((-x).Floor)
  }

  /** NUM2INT of Ruby 1.8 on a 64-bit build, cast to unsigned int: a
      value outside the range of a C int raises RangeError, and a negative
      one wraps around. */
  function IntToUint(n: int): (r: Result<nat, AccessError>)
    ensures r.Success? <==> IntMin <= n <= IntMax
    ensures r.Success? ==> r.value < UintLimit
    ensures 0 <= n <= IntMax ==> r == Success(n)
    ensures IntMin <= n < 0 ==> r == Success(n + UintLimit)
    ensures !(IntMin <= n <= IntMax) ==> r == Failure(RangeError)
  {
    if n < IntMin || n > IntMax then Failure(RangeError)
    else if n < 0 then Success(n + UintLimit)
    else Success(n)
  }

  /** NUM2UINT of Ruby 1.8 on a 64-bit build, `(unsigned int)NUM2INT(v)`:
      an Integer is range-checked, a Float is cut toward zero first, and
      anything that is not a number raises TypeError. */
  function Num2Uint(v: Numeric): (r: Result<nat, AccessError>)
    ensures r.Success? ==> r.value < UintLimit
    ensures v.Integer? ==> r == IntToUint(v.n)
    ensures v.Float? ==> r == IntToUint(Truncate(v.x))
    ensures v.NotNumeric? ==> r == Failure(TypeError)
  {
    match v
    case NotNumeric => Failure(TypeError)
    case Float(x) => IntToUint(Truncate(x))
    case Integer(n) => IntToUint(n)
  }

  /** The C int an unsigned int holds, read back as signed. */
  function Signed(u: nat): int
    requires u < UintLimit
  {
    if u > IntMax then u - UintLimit else u
  }

  /** The conversion loses nothing: an Integer it accepts is the signed
      reading of the unsigned int it gives, and a Float its truncation. */
  lemma Num2UintRoundTrip(v: Numeric)
    requires Num2Uint(v).Success?
    ensures v.Integer? ==> Signed(Num2Uint(v).value) == v.n
    ensures v.Float? ==> Signed(Num2Uint(v).value) == Truncate(v.x)
  {
  }

  /** _validate_readerstates_args: NUM2UINT of the index, then the bounds
      check against the element count. */
  function ValidateIndex(count: nat, index: Numeric): (r: Result<nat, AccessError>)
    ensures r.Success? ==> r.value < count
    ensures index.Integer? && 0 <= index.n < count && index.n <= IntMax ==> r == Success(index.n)
    ensures index.Integer? && count <= index.n <= IntMax ==> r == Failure(IndexError)
    ensures index.Integer? && !(IntMin <= index.n <= IntMax) ==> r == Failure(RangeError)
    ensures count <= 0x8000_0000 && index.Integer? && IntMin <= index.n < 0 ==> r == Failure(IndexError)
    ensures index.NotNumeric? ==> r == Failure(TypeError)
  {
    var i :- Num2Uint(index);
    if i >= count then Failure(IndexError) else Success(i)
  }

  /** A Float index whose integer part is outside a C int raises
      RangeError, whatever the count. */
  lemma FloatIndexRange(count: nat, x: real)
    requires x >= IntMax as real + 1.0 || x <= IntMin as real - 1.0
    ensures ValidateIndex(count, Float(x)) == Failure(RangeError)
  {
    var t := Truncate(x);
    assert t > IntMax || t < IntMin;
  }

  /** A Float index selects the element its integer part names, so a
      fraction of an element, even a negative one, is element 0. */
  lemma FloatIndex(count: nat, x: real)
    requires 0 < count && -1.0 < x && x < count as real && x <= IntMax as real
    ensures ValidateIndex(count, Float(x)) == Success(Truncate(x))
  {
    var t := Truncate(x);
    assert 0 <= t < count && t <= IntMax;
    assert Num2Uint(Float(x)) == Success(t);
  }

  /** acknowledge_events! on the element values: every current state
      becomes the event state. */
  function Acknowledged(s: seq<ReaderState>): (r: seq<ReaderState>)
    ensures |r| == |s|
    ensures forall i :: 0 <= i < |s| ==> r[i] == s[i].(currentState := s[i].eventState)
  {
    seq(|s|, i requires 0 <= i < |s| => s[i].(currentState := s[i].eventState))
  }

  /** Acknowledging twice is acknowledging once; event states, reader
      names and ATRs are left alone. */
  lemma AcknowledgedIdempotent(s: seq<ReaderState>)
    ensures Acknowledged(Acknowledged(s)) == Acknowledged(s)
    ensures forall i :: 0 <= i < |s| ==>
      Acknowledged(s)[i].eventState == s[i].eventState && Acknowledged(s)[i].reader == s[i].reader && Acknowledged(s)[i].atr == s[i].atr
  {
  }

  class ReaderStates {
    /** The SCARD_READERSTATE array; its length is states_count. */
    const states: array<ReaderState>
    /** MAX_ATR_SIZE of the PC/SC headers the extension is built against. */
    const maxAtrSize: nat

    ghost predicate Valid()
      reads states
    {
      forall i :: 0 <= i < states.Length ==> |states[i].atr| <= maxAtrSize
    }

    /** new(num_states): num_states elements, each with no reader name and
        current state SCARD_STATE_UNAWARE (0). The other fields are left as
        the allocator returned them. */
    constructor (numStates: nat, maxAtr: nat)
      ensures Valid() && fresh(states)
      ensures states.Length == numStates && maxAtrSize == maxAtr
      ensures forall i :: 0 <= i < numStates ==> states[i].reader.None? && states[i].currentState == 0
    {
      var uninitialized: Dword :| true;
      maxAtrSize := maxAtr;
      states := new ReaderState[numStates](_ => ReaderState(None, 0, uninitialized, []));
    }

    /** current_state_of. */
    function CurrentStateOf(index: Numeric): (r: Result<Dword, AccessError>)
      reads states
      ensures r.Success? <==> ValidateIndex(states.Length, index).Success?
      ensures r.Success? ==> r.value == states[ValidateIndex(states.Length, index).value].currentState
    {
      var i :- ValidateIndex(states.Length, index);
      Success(states[i].currentState)
    }

    /** event_state_of. */
    function EventStateOf(index: Numeric): (r: Result<Dword, AccessError>)
      reads states
      ensures r.Success? <==> ValidateIndex(states.Length, index).Success?
      ensures r.Success? ==> r.value == states[ValidateIndex(states.Length, index).value].eventState
    {
      var i :- ValidateIndex(states.Length, index);
      Success(states[i].eventState)
    }

    /** atr_of: the first cbAtr bytes of rgbAtr. */
    function AtrOf(index: Numeric): (r: Result<seq<byte>, AccessError>)
      reads states
      requires Valid()
      ensures r.Success? <==> ValidateIndex(states.Length, index).Success?
      ensures r.Success? ==> |r.value| <= maxAtrSize
    {
      var i :- ValidateIndex(states.Length, index);
      Success(states[i].atr)
    }

    /** reader_name_of: the name up to its first NUL; a NULL name makes
        rb_str_new2 raise. */
    function ReaderNameOf(index: Numeric): (r: Result<seq<byte>, AccessError>)
      reads states
      ensures r.Success? ==> forall k :: 0 <= k < |r.value| ==> r.value[k] != 0
      ensures ValidateIndex(states.Length, index).Success? && states[ValidateIndex(states.Length, index).value].reader.None? ==> r == Failure(ArgumentError)
      ensures ValidateIndex(states.Length, index).Failure? ==> r == Failure(ValidateIndex(states.Length, index).error)
      ensures ValidateIndex(states.Length, index).Success? && states[ValidateIndex(states.Length, index).value].reader.Some? ==>
        r == Success(UpToNul(states[ValidateIndex(states.Length, index).value].reader.value))
    {
      var i :- ValidateIndex(states.Length, index);
      match states[i].reader
      case None => Failure(ArgumentError)
      case Some(name) => Success(UpToNul(name))
    }

    /** set_current_state_of!: the index is checked, then the new value goes
        through NUM2UINT; only that element's current state changes. */
    method SetCurrentStateOf(index: Numeric, state: Numeric) returns (r: Result<(), AccessError>)
      requires Valid()
      modifies states
      ensures Valid()
      ensures ValidateIndex(states.Length, index).Failure? ==> r == Failure(ValidateIndex(states.Length, index).error)
      ensures ValidateIndex(states.Length, index).Success? ==> (r.Success? <==> Num2Uint(state).Success?)
      ensures ValidateIndex(states.Length, index).Success? && Num2Uint(state).Failure? ==> r == Failure(Num2Uint(state).error)
      ensures r.Failure? ==> states[..] == old(states[..])
      ensures r.Success? ==> var i := ValidateIndex(states.Length, index).value;
        states[..] == old(states[..])[i := old(states[i]).(currentState := Num2Uint(state).value as Dword)]
      ensures r.Success? ==> CurrentStateOf(index) == Success(Num2Uint(state).value as Dword)
    {
      var v := ValidateIndex(states.Length, index);
      if v.Failure? {
        return Failure(v.error);
      }
      var i := v.value;
      var u := Num2Uint(state);
      if u.Failure? {
        return Failure(u.error);
      }
      var d: Dword := u.value as Dword;
      ghost var before := states[..];
      states[i] := states[i].(currentState := d);
      assert states[..] == before[i := before[i].(currentState := d)];
      assert CurrentStateOf(index) == Success(d);
      return Success(());
    }

    /** set_event_state_of!: the index is checked, then the new value goes
        through NUM2UINT; only that element's event state changes. */
    method SetEventStateOf(index: Numeric, state: Numeric) returns (r: Result<(), AccessError>)
      requires Valid()
      modifies states
      ensures Valid()
      ensures ValidateIndex(states.Length, index).Failure? ==> r == Failure(ValidateIndex(states.Length, index).error)
      ensures ValidateIndex(states.Length, index).Success? ==> (r.Success? <==> Num2Uint(state).Success?)
      ensures ValidateIndex(states.Length, index).Success? && Num2Uint(state).Failure? ==> r == Failure(Num2Uint(state).error)
      ensures r.Failure? ==> states[..] == old(states[..])
      ensures r.Success? ==> var i := ValidateIndex(states.Length, index).value;
        states[..] == old(states[..])[i := old(states[i]).(eventState := Num2Uint(state).value as Dword)]
      ensures r.Success? ==> EventStateOf(index) == Success(Num2Uint(state).value as Dword)
    {
      var v := ValidateIndex(states.Length, index);
      if v.Failure? {
        return Failure(v.error);
      }
      var i := v.value;
      var u := Num2Uint(state);
      if u.Failure? {
        return Failure(u.error);
      }
      var d: Dword := u.value as Dword;
      ghost var before := states[..];
      states[i] := states[i].(eventState := d);
      assert states[..] == before[i := before[i].(eventState := d)];
      assert EventStateOf(index) == Success(d);
      return Success(());
    }

    /** set_atr_of!: a value that is not a string (None) is ignored, one
        longer than MAX_ATR_SIZE raises ArgumentError, and otherwise the
        element's ATR becomes exactly those bytes. */
    method SetAtrOf(index: Numeric, atr: Option<seq<byte>>) returns (r: Result<(), AccessError>)
      requires Valid()
      modifies states
      ensures Valid()
      ensures ValidateIndex(states.Length, index).Failure? ==> r.Failure?
      ensures ValidateIndex(states.Length, index).Success? ==>
        (r.Failure? <==> atr.Some? && |atr.value| > maxAtrSize)
      ensures r.Failure? || atr.None? ==> states[..] == old(states[..])
      ensures r.Success? && atr.Some? ==> var i := ValidateIndex(states.Length, index).value;
        states[..] == old(states[..])[i := old(states[i]).(atr := atr.value)]
      ensures r.Success? && atr.Some? ==> AtrOf(index) == Success(atr.value)
    {
      var v := ValidateIndex(states.Length, index);
      if v.Failure? {
        return Failure(v.error);
      }
      var i := v.value;
      if atr.None? {
        return Success(());
      }
      if |atr.value| > maxAtrSize {
        return Failure(ArgumentError);
      }
      states[i] := states[i].(atr := atr.value);
      return Success(());
    }

    /** set_reader_name_of!: a value that is not a string (None) is
        ignored; otherwise the name is replaced by a copy. */
    method SetReaderNameOf(index: Numeric, name: Option<seq<byte>>) returns (r: Result<(), AccessError>)
      requires Valid()
      modifies states
      ensures Valid()
      ensures r.Success? <==> ValidateIndex(states.Length, index).Success?
      ensures r.Failure? || name.None? ==> states[..] == old(states[..])
      ensures r.Success? && name.Some? ==> var i := ValidateIndex(states.Length, index).value;
        states[..] == old(states[..])[i := old(states[i]).(reader := name)]
      ensures r.Success? && name.Some? ==> ReaderNameOf(index) == Success(UpToNul(name.value))
    {
      var v := ValidateIndex(states.Length, index);
      if v.Failure? {
        return Failure(v.error);
      }
      var i := v.value;
      if name.None? {
        return Success(());
      }
      states[i] := states[i].(reader := name);
      return Success(());
    }

    /** acknowledge_events!. */
    method AcknowledgeEvents()
      requires Valid()
      modifies states
      ensures Valid()
      ensures states[..] == Acknowledged(old(states[..]))
    {
      var i := 0;
      while i < states.Length
        invariant 0 <= i <= states.Length
        invariant forall k :: 0 <= k < i ==> states[k] == old(states[k]).(currentState := old(states[k]).eventState)
        invariant forall k :: i <= k < states.Length ==> states[k] == old(states[k])
      {
        states[i] := states[i].(currentState := states[i].eventState);
        i := i + 1;
      }
    }
  }

  /** The container test, states part: two elements written through the
      current-state setter read back what was written. */
  method ContainerScenario(maxAtr: nat)
  {
    var rs := new ReaderStates(2, maxAtr);
    assert Num2Uint(Integer(0x40)) == Success(0x40) && Num2Uint(Integer(0x2)) == Success(0x2);
    var ok := rs.SetCurrentStateOf(Integer(1), Integer(0x40));
    assert rs.CurrentStateOf(Integer(1)) == Success(0x40);
    ok := rs.SetCurrentStateOf(Integer(0), Integer(0x2));
    assert rs.CurrentStateOf(Integer(1)) == Success(0x40);
    assert rs.CurrentStateOf(Integer(0)) == Success(0x2);
  }

  /** The same for the event-state setter. */
  method EventStateScenario(maxAtr: nat)
  {
    var rs := new ReaderStates(2, maxAtr);
    assert Num2Uint(Integer(0x1)) == Success(0x1) && Num2Uint(Integer(0x20)) == Success(0x20);
    var ok := rs.SetEventStateOf(Integer(0), Integer(0x1));
    assert rs.EventStateOf(Integer(0)) == Success(0x1);
    ok := rs.SetEventStateOf(Integer(1), Integer(0x20));
    assert rs.EventStateOf(Integer(0)) == Success(0x1);
    assert rs.EventStateOf(Integer(1)) == Success(0x20);
  }

  /** The container test, refusals: indexes 5, 2 and nil. */
  method RefusalScenario(maxAtr: nat)
  {
    var rs := new ReaderStates(2, maxAtr);
    assert rs.CurrentStateOf(Integer(5)) == Failure(IndexError);
    assert rs.CurrentStateOf(Integer(2)) == Failure(IndexError);
    assert rs.CurrentStateOf(NotNumeric) == Failure(TypeError);
  }

  /** The conversions of an index and a state: a Float index names the
      element of its integer part, -1 wraps past the end, 2^31 is out of a
      C int's range, and a state that is not a number changes nothing. */
  method ConversionScenario(maxAtr: nat)
  {
    var rs := new ReaderStates(2, maxAtr);
    var ok := rs.SetCurrentStateOf(Integer(1), Float(64.9));
    assert Truncate(1.5) == 1 && Truncate(64.9) == 64;
    assert rs.CurrentStateOf(Float(1.5)) == Success(0x40);
    assert rs.CurrentStateOf(Integer(-1)) == Failure(IndexError);
    assert rs.CurrentStateOf(Integer(0x8000_0000)) == Failure(RangeError);
    ok := rs.SetEventStateOf(Integer(0), NotNumeric);
    assert ok == Failure(TypeError);
  }

  /** The container test, ATR part: the ATR written to an element reads
      back, NUL octet included. */
  method ContainerNamesScenario(maxAtr: nat)
    requires maxAtr >= 14
  {
    var rs := new ReaderStates(2, maxAtr);
    var ok := rs.SetAtrOf(Integer(1), Some([0x52, 0x75, 0x62, 0x79, 0, 0x72, 0x6F, 0x63, 0x6B, 0x73, 0x21]));
    ok := rs.SetAtrOf(Integer(0), Some([0x67, 0x72, 0x72, 0x65, 0x61, 0x74, 0x20, 0x73, 0x75, 0x63, 0x63, 0x65, 0x73, 0x73]));
    assert rs.AtrOf(Integer(1)) == Success([0x52, 0x75, 0x62, 0x79, 0, 0x72, 0x6F, 0x63, 0x6B, 0x73, 0x21]);
    assert rs.AtrOf(Integer(0)) == Success([0x67, 0x72, 0x72, 0x65, 0x61, 0x74, 0x20, 0x73, 0x75, 0x63, 0x63, 0x65, 0x73, 0x73]);
  }

  /** The container test, reader names: each name written reads back. */
  method ReaderNameScenario(maxAtr: nat)
  {
    var rs := new ReaderStates(2, maxAtr);
    var ok := rs.SetReaderNameOf(Integer(0), Some([0x50, 0x43]));
    ok := rs.SetReaderNameOf(Integer(1), Some([0x43, 0x43, 0x49, 0x44]));
    UpToNulNoNul([0x50, 0x43]);
    UpToNulNoNul([0x43, 0x43, 0x49, 0x44]);
    assert rs.ReaderNameOf(Integer(0)) == Success([0x50, 0x43]);
    assert rs.ReaderNameOf(Integer(1)) == Success([0x43, 0x43, 0x49, 0x44]);
  }
}
