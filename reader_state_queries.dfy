/** The FFI reader-state queries of lib/smartcard/pcsc/reader_state_queries.rb:
    card states packed into and unpacked from DWORD bit masks by the
    FFILib::CardState table (a parameter here: its values live in the
    generated FFI bindings), the accessors of one query, and the array of
    queries handed to SCardGetStatusChange. */
module ReaderStateQueries {
  import opened Wrappers
  import opened Bytes

  /** A PC/SC DWORD. */
  type Dword = bv32

  /** FFILib::CardState: (symbol, mask) pairs, in some fixed enumeration
      order. */
  type StateTable = seq<(string, Dword)>

  /** A member of an unpacked state: a CardState symbol, or an Integer
      holding bits no symbol covers. */
  datatype StateElement = Flag(name: string) | Bits(value: Dword)

  /** What a state setter accepts: one symbol, or an Enumerable of symbols
      and integers (iterated in the given order). */
  datatype UnpackedState = One(name: string) | Many(items: seq<StateElement>)

  datatype PackError =
    | NotAnInteger  // `state |=` given a Symbol: TypeError from Ruby 1.9 on
    | NoSuchState   // a single symbol CardState does not know packs to nil

  /** `|`, the bitwise OR. */
  function Or(a: Dword, b: Dword): Dword
  {
    a | b
  }

  predicate Disjoint(a: Dword, b: Dword)
  {
    a & b == 0
  }

  predicate DistinctNames(t: StateTable)
  {
    forall i, j :: 0 <= i < j < |t| ==> t[i].0 != t[j].0
  }

  /** The masks cover pairwise disjoint bits, as the PC/SC state flags do. */
  predicate DisjointMasks(t: StateTable)
  {
    forall i, j :: 0 <= i < j < |t| ==> Disjoint(t[i].1, t[j].1)
  }

  /** The names whose mask has some bit set. */
  function NonzeroNames(t: StateTable): set<string>
  {
    set i | 0 <= i < |t| && t[i].1 != 0 :: t[i].0
  }

  // ---------------------------------------------------------------------
  // FFI enum lookups

  /** `CardState[symbol]`: the mask of the first entry with that name. */
  function LookupFrom(t: StateTable, name: string, i: nat): (r: Option<Dword>)
    ensures r.Some? ==> exists j :: i <= j < |t| && t[j] == (name, r.value)
    decreases |t| - i
  {
    if i >= |t| then None
    else if t[i].0 == name then Some(t[i].1)
    else LookupFrom(t, name, i + 1)
  }

  /** `CardState[integer]`: the name of the first entry with that mask. */
  function ReverseLookupFrom(t: StateTable, v: Dword, i: nat): (r: Option<string>)
    ensures r.None? ==> forall j :: i <= j < |t| ==> t[j].1 != v
    decreases |t| - i
  {
    if i >= |t| then None
    else if t[i].1 == v then Some(t[i].0)
    else ReverseLookupFrom(t, v, i + 1)
  }

  lemma {:induction false} LookupFromAt(t: StateTable, k: nat, i: nat)
    requires DistinctNames(t) && i <= k < |t|
    ensures LookupFrom(t, t[k].0, i) == Some(t[k].1)
    decreases k - i
  {
    if i < k {
      LookupFromAt(t, k, i + 1);
    }
  }

  lemma {:induction false} ReverseLookupMissing(t: StateTable, v: Dword, i: nat)
    requires forall j :: i <= j < |t| ==> t[j].1 != v
    ensures ReverseLookupFrom(t, v, i) == None
    decreases |t| - i
  {
    if i < |t| {
      ReverseLookupMissing(t, v, i + 1);
    }
  }

  // ---------------------------------------------------------------------
  // pack_state

  /** The bits one element of an Enumerable contributes: a known symbol its
      mask, an integer itself. A symbol the table lacks, and an integer
      that names a symbol (the FFI enum maps it back to that symbol), both
      end in `state |= symbol`. */
  function ElementValue(t: StateTable, e: StateElement): (r: Result<Dword, PackError>)
    ensures r.Failure? ==> r.error == NotAnInteger
    ensures e.Bits? && r.Success? ==> r.value == e.value
  {
    match e
    case Flag(name) =>
      (match LookupFrom(t, name, 0) case Some(m) => Success(m) case None => Failure(NotAnInteger))
    case Bits(v) =>
      if ReverseLookupFrom(t, v, 0).Some? then Failure(NotAnInteger) else Success(v)
  }

  /** The OR over an Enumerable; the first offending element raises. */
  function PackedItems(t: StateTable, items: seq<StateElement>): (r: Result<Dword, PackError>)
    ensures r.Failure? ==> r.error == NotAnInteger
  {
    if items == [] then Success(0)
    else
      var v :- ElementValue(t, items[0]);
      var rest :- PackedItems(t, items[1..]);
      Success(Or(v, rest))
  }

  /** Ruby 1.8's reading of one element: there `Symbol#to_int` exists, so
      `state |= symbol` ORs in the symbol's internal ID (`symbolId`)
      where Ruby 1.9 raises. */
  function ElementValueRuby18(t: StateTable, symbolId: string -> Dword, e: StateElement): (r: Dword)
    ensures ElementValue(t, e).Success? ==> r == ElementValue(t, e).value
    ensures e.Flag? && LookupFrom(t, e.name, 0).None? ==> r == symbolId(e.name)
    ensures e.Bits? && ReverseLookupFrom(t, e.value, 0).Some? ==> r == symbolId(ReverseLookupFrom(t, e.value, 0).value)
  {
    match e
    case Flag(name) =>
      (match LookupFrom(t, name, 0) case Some(m) => m case None => symbolId(name))
    case Bits(v) =>
      (match ReverseLookupFrom(t, v, 0) case Some(name) => symbolId(name) case None => v)
  }

  /** The OR over an Enumerable under Ruby 1.8, which never raises. */
  function PackedItemsRuby18(t: StateTable, symbolId: string -> Dword, items: seq<StateElement>): Dword
  {
    if items == [] then 0
    else Or(ElementValueRuby18(t, symbolId, items[0]), PackedItemsRuby18(t, symbolId, items[1..]))
  }

  /** Where Ruby 1.9 packs an Enumerable, Ruby 1.8 packs it to the same
      value, whatever the symbol IDs. */
  lemma {:induction false} PackedItemsRuby18Agrees(t: StateTable, symbolId: string -> Dword, items: seq<StateElement>)
    requires PackedItems(t, items).Success?
    ensures PackedItemsRuby18(t, symbolId, items) == PackedItems(t, items).value
  {
    if items != [] {
      PackedItemsRuby18Agrees(t, symbolId, items[1..]);
    }
  }

  /** `pack_state([:bogus])`: Ruby 1.9 raises TypeError, Ruby 1.8 gives
      the symbol's ID. */
  lemma UnknownSymbolPacks(t: StateTable, symbolId: string -> Dword, name: string)
    requires LookupFrom(t, name, 0).None?
    ensures PackedItems(t, [Flag(name)]) == Failure(NotAnInteger)
    ensures PackedItemsRuby18(t, symbolId, [Flag(name)]) == symbolId(name)
  {
    assert [Flag(name)][1..] == [];
    OrZero(symbolId(name));
  }

  /** pack_state as a function. */
  function Packed(t: StateTable, u: UnpackedState): (r: Result<Dword, PackError>)
    ensures u.One? ==> (r.Success? <==> LookupFrom(t, u.name, 0).Some?)
    ensures u.One? && r.Success? ==> r.value == LookupFrom(t, u.name, 0).value
    ensures u.Many? && u.items == [] ==> r == Success(0)
  {
    match u
    case One(name) =>
      (match LookupFrom(t, name, 0) case Some(m) => Success(m) case None => Failure(NoSuchState))
    case Many(items) => PackedItems(t, items)
  }

  /** Packing a concatenation ORs the two packings. */
  lemma {:induction false} PackedAppend(t: StateTable, a: seq<StateElement>, b: seq<StateElement>)
    ensures PackedItems(t, a + b).Success? <==> PackedItems(t, a).Success? && PackedItems(t, b).Success?
    ensures PackedItems(t, a + b).Success? ==>
      PackedItems(t, a + b).value == Or(PackedItems(t, a).value, PackedItems(t, b).value)
  {
    if a == [] {
      assert a + b == b;
    } else {
      assert (a + b)[0] == a[0];
      assert (a + b)[1..] == a[1..] + b;
      PackedAppend(t, a[1..], b);
    }
  }

  /** The order an Enumerable yields its members in does not matter. */
  lemma PackedCommutes(t: StateTable, a: seq<StateElement>, b: seq<StateElement>)
    ensures PackedItems(t, a + b) == PackedItems(t, b + a)
  {
    PackedAppend(t, a, b);
    PackedAppend(t, b, a);
    if PackedItems(t, a).Success? && PackedItems(t, b).Success? {
      OrCommutes(PackedItems(t, a).value, PackedItems(t, b).value);
    }
  }

  /** pack_state: a single symbol looks up its mask; an Enumerable is
      folded with `|=`. */
  method PackState(t: StateTable, u: UnpackedState) returns (r: Result<Dword, PackError>)
    ensures r == Packed(t, u)
  {
    if u.One? {
      return Packed(t, u);
    }
    var items := u.items;
    var state: Dword := 0;
    var i := 0;
    while i < |items|
      invariant 0 <= i <= |items|
      invariant PackedItems(t, items[..i]) == Success(state)
    {
      var v := ElementValue(t, items[i]);
      assert items[..i + 1] == items[..i] + [items[i]];
      PackedAppend(t, items[..i], [items[i]]);
      assert PackedItems(t, [items[i]]) == (if v.Success? then Success(Or(v.value, 0)) else Failure(NotAnInteger));
      if v.Failure? {
        PackedAppend(t, items[..i + 1], items[i + 1..]);
        assert items[..i + 1] + items[i + 1..] == items;
        return Failure(v.error);
      }
      state := Or(state, v.value);
      i := i + 1;
    }
    assert items[..i] == items;
    return Success(state);
  }

  // ---------------------------------------------------------------------
  // unpack_state

  /** The mask has bits, and all of them are set in p. */
  predicate Covers(p: Dword, m: Dword)
  {
    m != 0 && p & m == m
  }

  /** `packed_state ^= mask`. */
  function Clear(p: Dword, m: Dword): Dword
  {
    p ^ m
  }

  lemma ClearKeepsUncovered(p: Dword, m: Dword, n: Dword)
    requires Covers(p, m) && (n == m || !Covers(p, n))
    ensures !Covers(Clear(p, m), n)
  {
  }

  lemma ClearRestores(p: Dword, m: Dword)
    requires Covers(p, m)
    ensures Or(m, Clear(p, m)) == p
  {
  }

  lemma OrCoversLeft(a: Dword, b: Dword)
    requires a != 0
    ensures Covers(Or(a, b), a)
  {
  }

  lemma OrCoversRight(a: Dword, b: Dword)
    requires b != 0
    ensures Covers(Or(a, b), b)
  {
  }

  lemma OrZero(a: Dword)
    ensures Or(a, 0) == a
  {
  }

  lemma OrCommutes(a: Dword, b: Dword)
    ensures Or(a, b) == Or(b, a)
  {
  }

  lemma ClearDisjoint(p: Dword, m: Dword, n: Dword)
    requires Disjoint(m, n)
    ensures Covers(Clear(p, m), n) <==> Covers(p, n)
  {
  }

  /** unpack_state as a function, from table entry i on: in table order,
      each nonzero mask that lies inside the remaining bits adds its symbol
      and clears those bits; what is left, if anything, is added as an
      integer. */
  function UnpackedFrom(t: StateTable, i: nat, packed: Dword): seq<StateElement>
    decreases |t| - i
  {
    if i >= |t| then (if packed != 0 then [Bits(packed)] else [])
    else if Covers(packed, t[i].1) then [Flag(t[i].0)] + UnpackedFrom(t, i + 1, Clear(packed, t[i].1))
    else UnpackedFrom(t, i + 1, packed)
  }

  function Unpacked(t: StateTable, packed: Dword): seq<StateElement>
  {
    UnpackedFrom(t, 0, packed)
  }

  /** unpack_state: the loop over the table with `packed_state ^= mask`. */
  method UnpackState(t: StateTable, packed: Dword) returns (state: seq<StateElement>)
    ensures state == Unpacked(t, packed)
  {
    state := [];
    var p := packed;
    var i := 0;
    while i < |t|
      invariant 0 <= i <= |t|
      invariant Unpacked(t, packed) == state + UnpackedFrom(t, i, p)
    {
      var (symbol, mask) := t[i];
      if Covers(p, mask) {
        state := state + [Flag(symbol)];
        p := Clear(p, mask);
      }
      i := i + 1;
    }
    if p != 0 {
      state := state + [Bits(p)];
    }
  }

  /** Only symbols with a nonzero mask are unpacked, and an integer member
      is nonzero and comes last. */
  lemma {:induction false} UnpackedShape(t: StateTable, i: nat, packed: Dword)
    ensures forall k :: 0 <= k < |UnpackedFrom(t, i, packed)| && UnpackedFrom(t, i, packed)[k].Flag? ==>
      exists j :: i <= j < |t| && t[j].0 == UnpackedFrom(t, i, packed)[k].name && t[j].1 != 0
    ensures forall k :: 0 <= k < |UnpackedFrom(t, i, packed)| && UnpackedFrom(t, i, packed)[k].Bits? ==>
      UnpackedFrom(t, i, packed)[k].value != 0 && k == |UnpackedFrom(t, i, packed)| - 1
    decreases |t| - i
  {
    if i < |t| {
      var m := t[i].1;
      var q := if Covers(packed, m) then Clear(packed, m) else packed;
      UnpackedShape(t, i + 1, q);
      var rest := UnpackedFrom(t, i + 1, q);
      if Covers(packed, m) {
        var r := [Flag(t[i].0)] + rest;
        assert UnpackedFrom(t, i, packed) == r;
        forall k | 0 <= k < |r| && r[k].Flag?
          ensures exists j :: i <= j < |t| && t[j].0 == r[k].name && t[j].1 != 0
        {
          if k > 0 {
            assert r[k] == rest[k - 1];
            var j :| i + 1 <= j < |t| && t[j].0 == rest[k - 1].name && t[j].1 != 0;
          }
        }
        forall k | 0 <= k < |r| && r[k].Bits?
          ensures r[k].value != 0 && k == |r| - 1
        {
          assert r[k] == rest[k - 1];
        }
      }
    }
  }

  /** The round trip from table entry k on, while p holds no mask of the
      entries before k. */
  lemma {:induction false} RoundTripFrom(t: StateTable, k: nat, p: Dword)
    requires DistinctNames(t) && k <= |t|
    requires forall j :: 0 <= j < k ==> !Covers(p, t[j].1)
    ensures PackedItems(t, UnpackedFrom(t, k, p)) == Success(p)
    decreases |t| - k
  {
    if k == |t| {
      if p != 0 {
        ReverseLookupMissing(t, p, 0);
        assert ElementValue(t, Bits(p)) == Success(p);
        assert [Bits(p)][1..] == [];
      }
    } else {
      var m := t[k].1;
      if Covers(p, m) {
        var q := Clear(p, m);
        forall j | 0 <= j < k + 1
          ensures !Covers(q, t[j].1)
        {
          ClearKeepsUncovered(p, m, t[j].1);
        }
        RoundTripFrom(t, k + 1, q);
        LookupFromAt(t, k, 0);
        var rest := UnpackedFrom(t, k + 1, q);
        assert ([Flag(t[k].0)] + rest)[1..] == rest;
        ClearRestores(p, m);
      } else {
        RoundTripFrom(t, k + 1, p);
      }
    }
  }

  /** pack_state(unpack_state(x)) == x for every x, high-order bits
      included. */
  lemma PackUnpackRoundTrip(t: StateTable, x: Dword)
    requires DistinctNames(t)
    ensures Packed(t, Many(Unpacked(t, x))) == Success(x)
  {
    RoundTripFrom(t, 0, x);
  }

  /** A name is unpacked from entry i on only if some entry from i on has it. */
  lemma {:induction false} NamedFrom(t: StateTable, i: nat, p: Dword, n: string)
    requires forall j :: i <= j < |t| ==> t[j].0 != n
    ensures Flag(n) !in UnpackedFrom(t, i, p)
    decreases |t| - i
  {
    if i < |t| {
      var m := t[i].1;
      if Covers(p, m) {
        NamedFrom(t, i + 1, Clear(p, m), n);
        assert UnpackedFrom(t, i, p) == [Flag(t[i].0)] + UnpackedFrom(t, i + 1, Clear(p, m));
      } else {
        NamedFrom(t, i + 1, p, n);
        assert UnpackedFrom(t, i, p) == UnpackedFrom(t, i + 1, p);
      }
    } else {
      assert UnpackedFrom(t, i, p) == if p != 0 then [Bits(p)] else [];
    }
  }

  lemma {:induction false} MembershipFrom(t: StateTable, i: nat, k: nat, p: Dword)
    requires DistinctNames(t) && DisjointMasks(t) && i <= k < |t|
    ensures Flag(t[k].0) in UnpackedFrom(t, i, p) <==> Covers(p, t[k].1)
    decreases k - i
  {
    var m := t[i].1;
    if i == k {
      NamedFrom(t, k + 1, p, t[k].0);
      NamedFrom(t, k + 1, Clear(p, m), t[k].0);
    } else {
      assert t[i].0 != t[k].0;
      if Covers(p, m) {
        MembershipFrom(t, i + 1, k, Clear(p, m));
        ClearDisjoint(p, m, t[k].1);
      } else {
        MembershipFrom(t, i + 1, k, p);
      }
    }
  }

  /** With disjoint masks, a symbol is unpacked exactly when its nonzero
      mask lies inside the packed state. */
  lemma UnpackedMembership(t: StateTable, x: Dword, k: nat)
    requires DistinctNames(t) && DisjointMasks(t) && k < |t|
    ensures Flag(t[k].0) in Unpacked(t, x) <==> Covers(x, t[k].1)
  {
    MembershipFrom(t, 0, k, x);
  }

  /** The high-order-bits test: 0xFFFFFFFF unpacks to a set holding every
      nonzero symbol (:atrmatch among them) and packs back to itself. */
  lemma AllBitsVector(t: StateTable, k: nat)
    requires DistinctNames(t) && DisjointMasks(t) && k < |t| && t[k].1 != 0
    ensures Flag(t[k].0) in Unpacked(t, 0xFFFF_FFFF)
    ensures Packed(t, Many(Unpacked(t, 0xFFFF_FFFF))) == Success(0xFFFF_FFFF)
  {
    UnpackedMembership(t, 0xFFFF_FFFF, k);
    assert Covers(0xFFFF_FFFF, t[k].1);
    PackUnpackRoundTrip(t, 0xFFFF_FFFF);
  }

  /** The states test: two symbols pack to the OR of their masks, which
      unpacks to a set holding both. */
  lemma TwoSymbolsVector(t: StateTable, a: nat, b: nat)
    requires DistinctNames(t) && DisjointMasks(t) && a < |t| && b < |t| && t[a].1 != 0 && t[b].1 != 0
    ensures Packed(t, Many([Flag(t[a].0), Flag(t[b].0)])) == Success(Or(t[a].1, t[b].1))
    ensures Flag(t[a].0) in Unpacked(t, Or(t[a].1, t[b].1)) && Flag(t[b].0) in Unpacked(t, Or(t[a].1, t[b].1))
  {
    var ma, mb := t[a].1, t[b].1;
    LookupFromAt(t, a, 0);
    LookupFromAt(t, b, 0);
    var items := [Flag(t[a].0), Flag(t[b].0)];
    assert items[1..] == [Flag(t[b].0)] && items[1..][1..] == [];
    assert PackedItems(t, items[1..]) == Success(Or(mb, 0));
    OrZero(mb);
    OrCoversLeft(ma, mb);
    OrCoversRight(ma, mb);
    UnpackedMembership(t, Or(ma, mb), a);
    UnpackedMembership(t, Or(ma, mb), b);
  }

  // ---------------------------------------------------------------------
  // One query

  datatype AccessError =
    | TypeError         // the index is not Numeric
    | IndexError        // the index is not below the length
    | ArgumentError     // the ATR is above MAX_ATR_SIZE
    | NullPointerError  // the reader name was never assigned

  /** Ruby's `array[index]`: negative indexes count from the end, and an
      index out of range gives nil. */
  function RubyAt<T>(s: seq<T>, index: int): (r: Option<T>)
    ensures 0 <= index < |s| ==> r == Some(s[index])
    ensures -|s| <= index < 0 ==> r == Some(s[|s| + index])
    ensures index >= |s| || index < -|s| ==> r.None?
  {
    if 0 <= index < |s| then Some(s[index])
    else if -|s| <= index < 0 then Some(s[|s| + index])
    else None
  }

  /** FFILib::ReaderStateQuery: one SCARD_READERSTATE in the shared
      buffer. */
  class Query {
    var currentState: Dword
    var eventState: Dword
    var atrLength: nat
    /** rgbAtr, MAX_ATR_SIZE bytes. */
    const atrBuffer: array<byte>
    /** szReader: None while NULL, else the string copied in. */
    var readerName: Option<seq<byte>>

    predicate Valid()
      reads this
    {
      atrLength <= atrBuffer.Length
    }

    /** A zero-filled element. */
    constructor (maxAtrSize: nat)
      ensures Valid() && fresh(atrBuffer) && atrBuffer.Length == maxAtrSize
      ensures currentState == 0 && eventState == 0 && atrLength == 0 && readerName.None?
    {
      currentState := 0;
      eventState := 0;
      atrLength := 0;
      atrBuffer := new byte[maxAtrSize](_ => 0);
      readerName := None;
    }

    /** current_state: the unpacked set, which packs back to the field. */
    function CurrentState(t: StateTable): (r: seq<StateElement>)
      reads this
      ensures DistinctNames(t) ==> Packed(t, Many(r)) == Success(currentState)
    {
      var r := Unpacked(t, currentState);
      if DistinctNames(t) then PackUnpackRoundTrip(t, currentState); r else r
    }

    /** event_state: the unpacked set, which packs back to the field. */
    function EventState(t: StateTable): (r: seq<StateElement>)
      reads this
      ensures DistinctNames(t) ==> Packed(t, Many(r)) == Success(eventState)
    {
      var r := Unpacked(t, eventState);
      if DistinctNames(t) then PackUnpackRoundTrip(t, eventState); r else r
    }

    /** current_state=: the field becomes pack_state of the new value; when
        packing raises (or gives nil) nothing changes. */
    method SetCurrentState(t: StateTable, u: UnpackedState) returns (r: Result<(), PackError>)
      modifies this
      ensures r.Success? <==> Packed(t, u).Success?
      ensures r.Success? ==> currentState == Packed(t, u).value
      ensures r.Failure? ==> currentState == old(currentState)
      ensures eventState == old(eventState) && atrLength == old(atrLength) && readerName == old(readerName)
    {
      var packed := PackState(t, u);
      if packed.Failure? {
        return Failure(packed.error);
      }
      currentState := packed.value;
      return Success(());
    }

    /** event_state=. */
    method SetEventState(t: StateTable, u: UnpackedState) returns (r: Result<(), PackError>)
      modifies this
      ensures r.Success? <==> Packed(t, u).Success?
      ensures r.Success? ==> eventState == Packed(t, u).value
      ensures r.Failure? ==> eventState == old(eventState)
      ensures currentState == old(currentState) && atrLength == old(atrLength) && readerName == old(readerName)
    {
      var packed := PackState(t, u);
      if packed.Failure? {
        return Failure(packed.error);
      }
      eventState := packed.value;
      return Success(());
    }

    /** changed?: the event state holds :changed. */
    predicate Changed(t: StateTable)
      reads this
    {
      Flag("changed") in Unpacked(t, eventState)
    }

    /** atr: the first atr_length bytes of the buffer. */
    function Atr(): (r: seq<byte>)
      reads this, atrBuffer
      requires Valid()
      ensures |r| == atrLength && r == atrBuffer[..atrLength]
    {
      atrBuffer[..atrLength]
    }

    /** atr=: above MAX_ATR_SIZE raises ArgumentError; otherwise the bytes
        are copied in, NULs included, and read back exactly. */
    method SetAtr(newAtr: seq<byte>) returns (r: Result<(), AccessError>)
      requires Valid()
      modifies this, atrBuffer
      ensures Valid()
      ensures r.Failure? <==> |newAtr| > atrBuffer.Length
      ensures r.Failure? ==> r.error == ArgumentError && atrLength == old(atrLength) && atrBuffer[..] == old(atrBuffer[..])
      ensures r.Success? ==> Atr() == newAtr && atrBuffer[|newAtr|..] == old(atrBuffer[|newAtr|..])
      ensures currentState == old(currentState) && eventState == old(eventState) && readerName == old(readerName)
    {
      if |newAtr| > atrBuffer.Length {
        return Failure(ArgumentError);
      }
      atrLength := |newAtr|;
      forall i | 0 <= i < |newAtr| {
        atrBuffer[i] := newAtr[i];
      }
      return Success(());
    }

    /** reader_name: the string up to its NUL; a NULL name cannot be read. */
    function ReaderName(): (r: Result<seq<byte>, AccessError>)
      reads this
      ensures readerName.None? <==> r == Failure(NullPointerError)
      ensures r.Success? ==> forall i :: 0 <= i < |r.value| ==> r.value[i] != 0
    {
      match readerName
      case None => Failure(NullPointerError)
      case Some(name) => Success(UpToNul(name))
    }

    /** reader_name=: the old string is freed and a copy of the new one
        takes its place. */
    method SetReaderName(name: seq<byte>)
      modifies this
      ensures ReaderName() == Success(UpToNul(name))
      ensures currentState == old(currentState) && eventState == old(eventState) && atrLength == old(atrLength)
    {
      readerName := Some(name);
    }
  }

  /** The queries of the list whose event state holds :changed, in order. */
  function ChangedAmong(t: StateTable, qs: seq<Query>): (r: seq<Query>)
    reads qs
    ensures forall i :: 0 <= i < |r| ==> r[i] in qs && r[i].Changed(t)
    ensures forall i :: 0 <= i < |qs| && qs[i].Changed(t) ==> qs[i] in r
    ensures IsSubsequence(r, qs)
  {
    if qs == [] then []
    else if qs[0].Changed(t) then [qs[0]] + ChangedAmong(t, qs[1..])
    else ChangedAmong(t, qs[1..])
  }

  /** a keeps some of b's elements, in b's order. */
  predicate IsSubsequence<T(==)>(a: seq<T>, b: seq<T>)
  {
    if a == [] then true
    else if b == [] then false
    else if a[0] == b[0] then IsSubsequence(a[1..], b[1..])
    else IsSubsequence(a, b[1..])
  }

  /** Smartcard::PCSC::ReaderStateQueries. */
  class ReaderStateQueries {
    const queries: seq<Query>

    ghost predicate Valid()
      reads this, queries
    {
      && (forall i :: 0 <= i < |queries| ==> queries[i].Valid())
      && (forall i, j :: 0 <= i < j < |queries| ==> queries[i] != queries[j] && queries[i].atrBuffer != queries[j].atrBuffer)
    }

    /** new(num_states): num_states zero-filled queries. */
    constructor (numStates: nat, maxAtrSize: nat)
      ensures Valid() && Length() == numStates
      ensures forall q :: q in queries ==> fresh(q) && fresh(q.atrBuffer) && q.atrBuffer.Length == maxAtrSize
      ensures forall q :: q in queries ==> q.currentState == 0 && q.eventState == 0 && q.atrLength == 0 && q.readerName.None?
    {
      var qs: seq<Query> := [];
      while |qs| < numStates
        invariant |qs| <= numStates
        invariant forall q :: q in qs ==> fresh(q) && fresh(q.atrBuffer) && q.atrBuffer.Length == maxAtrSize
        invariant forall q :: q in qs ==> q.currentState == 0 && q.eventState == 0 && q.atrLength == 0 && q.readerName.None?
        invariant forall i, j :: 0 <= i < j < |qs| ==> qs[i] != qs[j] && qs[i].atrBuffer != qs[j].atrBuffer
      {
        var q := new Query(maxAtrSize);
        qs := qs + [q];
      }
      queries := qs;
    }

    /** length. */
    function Length(): nat
    {
      |queries|
    }

    /** `[]`: a non-Numeric index raises TypeError and one at or past the
        length IndexError; negative indexes reach back from the end, and
        before the first element give nil. */
    function Get(index: Option<int>): (r: Result<Option<Query>, AccessError>)
      ensures index.None? ==> r == Failure(TypeError)
      ensures index.Some? && index.value >= |queries| ==> r == Failure(IndexError)
      ensures index.Some? && 0 <= index.value < |queries| ==> r == Success(Some(queries[index.value]))
      ensures index.Some? && -|queries| <= index.value < 0 ==> r == Success(Some(queries[|queries| + index.value]))
      ensures index.Some? && index.value < -|queries| ==> r == Success(None)
    {
      if index.None? then Failure(TypeError)
      else if index.value >= |queries| then Failure(IndexError)
      else Success(RubyAt(queries, index.value))
    }

    /** with_changes. */
    function WithChanges(t: StateTable): (r: seq<Query>)
      reads queries
      ensures forall i :: 0 <= i < |r| ==> r[i] in queries && r[i].Changed(t)
      ensures forall i :: 0 <= i < |queries| && queries[i].Changed(t) ==> queries[i] in r
      ensures IsSubsequence(r, queries)
    {
      ChangedAmong(t, queries)
    }

    /** ack_changes: every query's current state becomes its event state,
        and nothing else changes. */
    method AckChanges()
      requires Valid()
      modifies queries
      ensures Valid()
      ensures forall i :: 0 <= i < |queries| ==>
        queries[i].currentState == old(queries[i].eventState) && queries[i].eventState == old(queries[i].eventState)
      ensures forall i :: 0 <= i < |queries| ==>
        queries[i].atrLength == old(queries[i].atrLength) && queries[i].readerName == old(queries[i].readerName)
    {
      var i := 0;
      while i < |queries|
        invariant 0 <= i <= |queries|
        invariant forall k :: 0 <= k < i ==> queries[k].currentState == old(queries[k].eventState)
        invariant forall k :: i <= k < |queries| ==> queries[k].currentState == old(queries[k].currentState)
        invariant forall k :: 0 <= k < |queries| ==>
          queries[k].eventState == old(queries[k].eventState) && queries[k].atrLength == old(queries[k].atrLength) && queries[k].readerName == old(queries[k].readerName)
      {
        queries[i].currentState := queries[i].eventState;
        i := i + 1;
      }
    }
  }
}
