/** The Java Card CAP file logic of lib/smartcard/gp/cap_loader.rb: the
    component records `{u1 tag, u2 size, info[size]}` of the Java Card
    Virtual Machine Specification (section 6.3), read from every entry of
    the archive into one table, serialized again for on-card loading in the
    canonical load order, and the applet records of the Applet component
    (section 6.6). The archive itself is a parameter: the sequence of its
    entries' contents. */
module CapLoader {
  import opened Wrappers
  import opened Bytes

  datatype ComponentName =
    | Header | Directory | Applet | Import | ConstantPool | Class | Method
    | StaticField | ReferenceLocation | Export | Descriptor | Debug

  /** `TAG_NAMES[octet]`: nil for an octet that names no component. */
  function TagName(t: int): Option<ComponentName>
  {
    match t
    case 1 => Some(Header)
    case 2 => Some(Directory)
    case 3 => Some(Applet)
    case 4 => Some(Import)
    case 5 => Some(ConstantPool)
    case 6 => Some(Class)
    case 7 => Some(Method)
    case 8 => Some(StaticField)
    case 9 => Some(ReferenceLocation)
    case 10 => Some(Export)
    case 11 => Some(Descriptor)
    case 12 => Some(Debug)
    case _ => None
  }

  /** TAG_NAMES' keys in some fixed enumeration order. */
  const TagOrder: seq<int> := [1, 2, 3, 4, 5, 6, 7, 8, 9, 10, 11, 12]

  /** The components table: an unknown tag octet is stored under nil. */
  type Components = map<Option<ComponentName>, seq<byte>>

  /** The keys of TAG_NAMES are the tags 1 to 12, and no two of them name
      the same component. */
  lemma TagNamesInjective()
    ensures forall t :: TagName(t).Some? <==> 1 <= t <= 12
    ensures forall a, b :: TagName(a).Some? && TagName(a) == TagName(b) ==> a == b
  {
  }

  /** `TAG_NAMES.keys.find { |k| TAG_NAMES[k] == name }` over the keys from
      position i on. */
  function FindTag(name: ComponentName, i: nat): (r: Option<int>)
    requires i <= |TagOrder|
    ensures r.Some? ==> TagName(r.value) == Some(name)
    decreases |TagOrder| - i
  {
    if i == |TagOrder| then None
    else if TagName(TagOrder[i]) == Some(name) then Some(TagOrder[i])
    else FindTag(name, i + 1)
  }

  /** The reverse lookup finds, for every name, the one tag that names it. */
  lemma FindTagTotal(name: ComponentName)
    ensures FindTag(name, 0).Some?
    ensures forall t :: TagName(t) == Some(name) ==> FindTag(name, 0) == Some(t)
  {
    FindTagFinds(name);
    TagNamesInjective();
  }

  /** The search reaches every key from position i on. */
  lemma {:induction false} FindTagFrom(name: ComponentName, i: nat, j: nat)
    requires i <= j < |TagOrder| && TagName(TagOrder[j]) == Some(name)
    ensures FindTag(name, i).Some?
    decreases j - i
  {
    if TagName(TagOrder[i]) != Some(name) {
      FindTagFrom(name, i + 1, j);
    }
  }

  lemma FindTagFinds(name: ComponentName)
    ensures FindTag(name, 0).Some?
  {
    match name
    case Header => FindTagFrom(name, 0, 0);
    case Directory => FindTagFrom(name, 0, 1);
    case Applet => FindTagFrom(name, 0, 2);
    case Import => FindTagFrom(name, 0, 3);
    case ConstantPool => FindTagFrom(name, 0, 4);
    case Class => FindTagFrom(name, 0, 5);
    case Method => FindTagFrom(name, 0, 6);
    case StaticField => FindTagFrom(name, 0, 7);
    case ReferenceLocation => FindTagFrom(name, 0, 8);
    case Export => FindTagFrom(name, 0, 9);
    case Descriptor => FindTagFrom(name, 0, 10);
    case Debug => FindTagFrom(name, 0, 11);
  }

  // ---------------------------------------------------------------------
  // Reading the records of an entry

  datatype CapError =
    | TruncatedRecordHeader   // fewer than three octets left for a tag and a size
    | MissingAppletCount      // the Applet component is empty
    | MissingAidLength        // an applet record starts past the end
    | MissingInstallMethod    // an AID runs past the end of the component

  function Min(a: int, b: int): int
  {
    if a < b then a else b
  }

  /** Where the offset goes after the record at `offset`: past its header
      and the `size` its two size octets give, big-endian. */
  function NextOffset(data: seq<byte>, offset: nat): (r: nat)
    requires offset + 3 <= |data|
    ensures r >= offset + 3
  {
    offset + 3 + (data[offset + 1] as int * 256 + data[offset + 2])
  }

  /** `data[offset + 3, size]`: the contents of the record at `offset`,
      cut short at the end of the data. */
  function ValueAt(data: seq<byte>, offset: nat): seq<byte>
    requires offset + 3 <= |data|
  {
    data[offset + 3..Min(NextOffset(data, offset), |data|)]
  }

  /** The records of `data` from `offset` on, later records overwriting
      earlier ones with the same tag. A size running past the end keeps
      what is there, and the walk then stops. */
  function RecordsFrom(data: seq<byte>, offset: nat, acc: Components): Result<Components, CapError>
    decreases |data| - offset
  {
    if offset >= |data| then Success(acc)
    else if offset + 3 > |data| then Failure(TruncatedRecordHeader)
    else RecordsFrom(data, NextOffset(data, offset), acc[TagName(data[offset]) := ValueAt(data, offset)])
  }

  /** The loop of load_cap over one entry. */
  method ReadRecords(data: seq<byte>, components: Components) returns (r: Result<Components, CapError>)
    ensures r == RecordsFrom(data, 0, components)
  {
    var comps := components;
    var offset := 0;
    while offset < |data|
      invariant RecordsFrom(data, 0, components) == RecordsFrom(data, offset, comps)
      decreases |data| - offset
    {
      if offset + 3 > |data| {
        return Failure(TruncatedRecordHeader);
      }
      var tag := TagName(data[offset]);
      var size := data[offset + 1] as int * 256 + data[offset + 2];
      var value := data[offset + 3..Min(offset + 3 + size, |data|)];
      comps := comps[tag := value];
      offset := offset + 3 + size;
    }
    return Success(comps);
  }

  /** All entries of the archive, in order, into one table. */
  function LoadEntries(entries: seq<seq<byte>>, acc: Components): Result<Components, CapError>
    decreases |entries|
  {
    if entries == [] then Success(acc)
    else
      var next :- RecordsFrom(entries[0], 0, acc);
      LoadEntries(entries[1..], next)
  }

  /** load_cap, the archive given as its entries' contents. */
  method LoadCap(entries: seq<seq<byte>>) returns (r: Result<Components, CapError>)
    ensures r == LoadEntries(entries, map[])
  {
    var components: Components := map[];
    var i := 0;
    while i < |entries|
      invariant i <= |entries|
      invariant LoadEntries(entries, map[]) == LoadEntries(entries[i..], components)
    {
      var next := ReadRecords(entries[i], components);
      assert entries[i..][1..] == entries[i + 1..];
      if next.Failure? {
        return Failure(next.error);
      }
      components := next.value;
      i := i + 1;
    }
    return Success(components);
  }

  // ---------------------------------------------------------------------
  // Serialization

  /** The load order of serialize_components. */
  const LoadOrder: seq<ComponentName> := [Header, Directory, Import, Applet, Class, Method,
    StaticField, Export, ConstantPool, ReferenceLocation]

  /** The tag of a component name, found by the reverse lookup. */
  function TagOf(name: ComponentName): (t: byte)
    ensures TagName(t) == Some(name)
  {
    FindTagTotal(name);
    FindTag(name, 0).value
  }

  /** `[tag, length, data]` flattened; the size is truncated to 16 bits, as
      `pack('n')` does. */
  function Record(name: ComponentName, value: seq<byte>): (r: seq<byte>)
    ensures |r| == 3 + |value|
  {
    [TagOf(name)] + U16(|value|) + value
  }

  /** The records of the present components among `names`, in that order. */
  function SerializeNames(components: Components, names: seq<ComponentName>): seq<byte>
  {
    if names == [] then [] else RecordOf(components, names[0]) + SerializeNames(components, names[1..])
  }

  /** The record of a present component; nothing for an absent one. */
  function RecordOf(components: Components, name: ComponentName): seq<byte>
  {
    if Some(name) in components then Record(name, components[Some(name)]) else []
  }

  /** serialize_components. */
  function SerializeComponents(components: Components): seq<byte>
  {
    SerializeNames(components, LoadOrder)
  }

  /** The number of octets the present components among `names` take. */
  function SerializedSize(components: Components, names: seq<ComponentName>): nat
  {
    if names == [] then 0
    else
      (if Some(names[0]) in components then 3 + |components[Some(names[0])]| else 0)
        + SerializedSize(components, names[1..])
  }

  /** Every present component costs three header octets plus its contents,
      and an absent one costs nothing. */
  lemma {:induction false} SerializedLength(components: Components, names: seq<ComponentName>)
    ensures |SerializeNames(components, names)| == SerializedSize(components, names)
  {
    if names != [] {
      SerializedLength(components, names[1..]);
    }
  }

  /** The table restricted to the components named in `names`. */
  function Restrict(components: Components, names: seq<ComponentName>): Components
  {
    map k | k in components && k.Some? && k.value in names :: components[k]
  }

  /** Every component short enough for its 16-bit size field. */
  predicate SizesFit(components: Components)
  {
    forall k :: k in components ==> |components[k]| < 65536
  }

  /** Adding the first name's component, then the rest's, is adding all. */
  lemma RestrictPresent(components: Components, names: seq<ComponentName>, acc: Components)
    requires names != [] && Some(names[0]) in components
    ensures acc[Some(names[0]) := components[Some(names[0])]] + Restrict(components, names[1..])
         == acc + Restrict(components, names)
  {
    var n := names[0];
    var left := acc[Some(n) := components[Some(n)]] + Restrict(components, names[1..]);
    var right := acc + Restrict(components, names);
    forall k
      ensures k in left <==> k in right
      ensures k in left ==> left[k] == right[k]
    {
      if k.Some? && k.value in names && k.value != n {
        assert k.value in names[1..];
      }
    }
  }

  /** An absent first name adds nothing. */
  lemma RestrictAbsent(components: Components, names: seq<ComponentName>, acc: Components)
    requires names != [] && Some(names[0]) !in components
    ensures acc + Restrict(components, names[1..]) == acc + Restrict(components, names)
  {
    var n := names[0];
    forall k | k in components && k.Some? && k.value in names
      ensures k.value in names[1..]
    {
      assert k.value != n;
    }
    assert Restrict(components, names[1..]) == Restrict(components, names);
  }

  /** The present components among `names`, with their contents, in
      that order. */
  function Present(components: Components, names: seq<ComponentName>): (r: seq<(ComponentName, seq<byte>)>)
    ensures |r| <= |names|
  {
    if names == [] then []
    else if Some(names[0]) in components then [(names[0], components[Some(names[0])])] + Present(components, names[1..])
    else Present(components, names[1..])
  }

  /** Records written one after another. */
  function RecordList(pairs: seq<(ComponentName, seq<byte>)>): seq<byte>
  {
    if pairs == [] then [] else Record(pairs[0].0, pairs[0].1) + RecordList(pairs[1..])
  }

  /** The table after storing each pair in turn. */
  function Updated(acc: Components, pairs: seq<(ComponentName, seq<byte>)>): Components
    decreases |pairs|
  {
    if pairs == [] then acc else Updated(acc[Some(pairs[0].0) := pairs[0].1], pairs[1..])
  }

  /** Every contents fits the 16-bit size field. */
  predicate PairsFit(pairs: seq<(ComponentName, seq<byte>)>)
  {
    pairs == [] || (|pairs[0].1| < 65536 && PairsFit(pairs[1..]))
  }

  /** The records of `pairs` lie at `offset` of `data`, one after another,
      up to the end of the data. */
  predicate RecordChain(data: seq<byte>, offset: nat, pairs: seq<(ComponentName, seq<byte>)>)
    decreases |pairs|
  {
    if pairs == [] then offset == |data|
    else
      offset + 3 <= |data| && TagName(data[offset]) == Some(pairs[0].0)
      && NextOffset(data, offset) == offset + |Record(pairs[0].0, pairs[0].1)|
      && ValueAt(data, offset) == pairs[0].1
      && RecordChain(data, offset + |Record(pairs[0].0, pairs[0].1)|, pairs[1..])
  }

  /** Walking a chain of records stores each of them in turn. */
  lemma {:induction false} ReadChain(data: seq<byte>, offset: nat, pairs: seq<(ComponentName, seq<byte>)>, acc: Components)
    requires RecordChain(data, offset, pairs)
    ensures RecordsFrom(data, offset, acc) == Success(Updated(acc, pairs))
    decreases |pairs|
  {
    if pairs != [] {
      ReadChain(data, offset + |Record(pairs[0].0, pairs[0].1)|, pairs[1..], acc[Some(pairs[0].0) := pairs[0].1]);
    }
  }

  /** A record written after `prefix` and followed by `tail` is read back
      at the end of the prefix. */
  lemma RecordAfter(data: seq<byte>, prefix: seq<byte>, name: ComponentName, value: seq<byte>, tail: seq<byte>)
    requires |value| < 65536 && data == prefix + Record(name, value) + tail
    ensures |prefix| + 3 <= |data|
    ensures TagName(data[|prefix|]) == Some(name)
    ensures NextOffset(data, |prefix|) == |prefix| + |Record(name, value)|
    ensures ValueAt(data, |prefix|) == value
  {
    var u := U16(|value|);
    var o := |prefix|;
    assert data[o] == TagOf(name);
    assert data[o + 1] == u[0] && data[o + 2] == u[1];
    U16Octets(|value|);
    assert data[o + 3..o + 3 + |value|] == value;
  }

  /** The records of `pairs`, written after `prefix`, form a chain from the
      end of the prefix. */
  lemma {:induction false} ListChain(data: seq<byte>, prefix: seq<byte>, pairs: seq<(ComponentName, seq<byte>)>)
    requires PairsFit(pairs)
    requires data == prefix + RecordList(pairs)
    ensures RecordChain(data, |prefix|, pairs)
    decreases |pairs|
  {
    if pairs == [] {
      assert data == prefix;
    } else {
      assert data == prefix + Record(pairs[0].0, pairs[0].1) + RecordList(pairs[1..]);
      RecordAfter(data, prefix, pairs[0].0, pairs[0].1, RecordList(pairs[1..]));
      ListChain(data, prefix + Record(pairs[0].0, pairs[0].1), pairs[1..]);
    }
  }

  /** The serialized records are those of the present components. */
  lemma {:induction false} SerializePresent(components: Components, names: seq<ComponentName>)
    ensures SerializeNames(components, names) == RecordList(Present(components, names))
  {
    if names != [] {
      SerializePresent(components, names[1..]);
    }
  }

  /** Every present component fits its size field. */
  lemma {:induction false} PresentFit(components: Components, names: seq<ComponentName>)
    requires SizesFit(components)
    ensures PairsFit(Present(components, names))
  {
    if names != [] {
      PresentFit(components, names[1..]);
    }
  }

  /** Storing the present components among `names` adds exactly those
      components to the table. */
  lemma {:induction false} UpdatedPresent(components: Components, names: seq<ComponentName>, acc: Components)
    ensures Updated(acc, Present(components, names)) == acc + Restrict(components, names)
    decreases |names|
  {
    if names == [] {
      assert Restrict(components, names) == map[];
      assert acc + map[] == acc;
    } else if Some(names[0]) in components {
      UpdatedPresent(components, names[1..], acc[Some(names[0]) := components[Some(names[0])]]);
      RestrictPresent(components, names, acc);
    } else {
      UpdatedPresent(components, names[1..], acc);
      RestrictAbsent(components, names, acc);
    }
  }

  /** Reading serialize_components' output as one entry gives back the ten
      loadable components, and neither the descriptor, nor the debug
      component, nor one stored under an unknown tag. */
  lemma SerializeRoundTrip(components: Components)
    requires SizesFit(components)
    ensures RecordsFrom(SerializeComponents(components), 0, map[]) == Success(Restrict(components, LoadOrder))
  {
    SerializePresent(components, LoadOrder);
    PresentFit(components, LoadOrder);
    assert SerializeComponents(components) == [] + RecordList(Present(components, LoadOrder));
    ListChain(SerializeComponents(components), [], Present(components, LoadOrder));
    ReadChain(SerializeComponents(components), 0, Present(components, LoadOrder), map[]);
    UpdatedPresent(components, LoadOrder, map[]);
    UnionEmpty(Restrict(components, LoadOrder));
  }

  lemma UnionEmpty(m: Components)
    ensures map[] + m == m
  {
  }

  /** What the round trip keeps: the ten loadable components with their
      contents, and neither the descriptor, nor the debug component, nor
      one stored under an unknown tag. */
  lemma LoadableComponents(components: Components)
    ensures forall n :: n in LoadOrder && Some(n) in components ==>
      Some(n) in Restrict(components, LoadOrder) && Restrict(components, LoadOrder)[Some(n)] == components[Some(n)]
    ensures Some(Descriptor) !in Restrict(components, LoadOrder) && Some(Debug) !in Restrict(components, LoadOrder)
    ensures None !in Restrict(components, LoadOrder)
  {
    assert Descriptor !in LoadOrder && Debug !in LoadOrder;
  }

  /** The output is the sum of the present components' records. */
  lemma SerializeLength(components: Components)
    ensures |SerializeComponents(components)| == SerializedSize(components, LoadOrder)
  {
    SerializedLength(components, LoadOrder);
  }

  // ---------------------------------------------------------------------
  // The Applet component

  datatype AppletInfo = AppletInfo(aid: seq<byte>, installMethod: Option<nat>)

  /** Prepends parsed applets to the rest of a parse. */
  function PrependApplets(prefix: seq<AppletInfo>, r: Result<seq<AppletInfo>, CapError>): Result<seq<AppletInfo>, CapError>
  {
    match r
    case Success(rest) => Success(prefix + rest)
    case Failure(e) => Failure(e)
  }

  /** `section[start, 2].unpack('n').first`: nil when fewer than two octets
      are left. */
  function InstallMethodAt(section: seq<byte>, start: nat): Option<nat>
  {
    if start + 2 <= |section| then Some(section[start] as int * 256 + section[start + 1]) else None
  }

  /** One applet record at `offset`: an AID length octet, the AID, then the
      install method offset; and the offset of the next record. */
  function AppletAt(section: seq<byte>, offset: nat): (r: Result<(AppletInfo, nat), CapError>)
    ensures r.Success? ==> r.value.1 == offset + 3 + |r.value.0.aid|
  {
    if offset >= |section| then Failure(MissingAidLength)
    else
      var start := offset + 1 + section[offset];
      if start > |section| then Failure(MissingInstallMethod)
      else Success((AppletInfo(section[offset + 1..start], InstallMethodAt(section, start)), start + 2))
  }

  /** The `count` applet records from `offset` on. */
  function AppletsFrom(section: seq<byte>, offset: nat, count: nat): Result<seq<AppletInfo>, CapError>
    decreases count
  {
    if count == 0 then Success([])
    else
      var a :- AppletAt(section, offset);
      PrependApplets([a.0], AppletsFrom(section, a.1, count - 1))
  }

  /** parse_applets as a function of the components table. */
  function AppletsOf(components: Components): Result<seq<AppletInfo>, CapError>
  {
    if Some(Applet) !in components then Success([])
    else
      var section := components[Some(Applet)];
      if section == [] then Failure(MissingAppletCount) else AppletsFrom(section, 1, section[0])
  }

  lemma PrependAppletsNil(r: Result<seq<AppletInfo>, CapError>)
    ensures PrependApplets([], r) == r
  {
    if r.Success? {
      assert [] + r.value == r.value;
    }
  }

  lemma PrependAppletsStep(s: seq<AppletInfo>, x: AppletInfo, r: Result<seq<AppletInfo>, CapError>)
    ensures PrependApplets(s, PrependApplets([x], r)) == PrependApplets(s + [x], r)
  {
    if r.Success? {
      assert s + ([x] + r.value) == (s + [x]) + r.value;
    }
  }

  lemma PrependAppletsFailure(s: seq<AppletInfo>, e: CapError)
    ensures PrependApplets(s, Failure(e)) == Failure(e)
  {
  }

  /** parse_applets: an absent Applet component gives no applets, an empty
      one has no count octet. */
  method ParseApplets(components: Components) returns (r: Result<seq<AppletInfo>, CapError>)
    ensures r == AppletsOf(components)
  {
    if Some(Applet) !in components {
      return Success([]);
    }
    var section := components[Some(Applet)];
    if |section| == 0 {
      return Failure(MissingAppletCount);
    }
    r := ReadApplets(section, section[0]);
  }

  /** The `section[0].times` loop of parse_applets. */
  method ReadApplets(section: seq<byte>, count: nat) returns (r: Result<seq<AppletInfo>, CapError>)
    ensures r == AppletsFrom(section, 1, count)
  {
    var applets: seq<AppletInfo> := [];
    PrependAppletsNil(AppletsFrom(section, 1, count));
    var offset: nat := 1;
    var i := 0;
    while i < count
      invariant 0 <= i <= count
      invariant AppletsFrom(section, 1, count) == PrependApplets(applets, AppletsFrom(section, offset, count - i))
    {
      var a := ReadApplet(section, offset);
      if a.Failure? {
        PrependAppletsFailure(applets, a.error);
        return Failure(a.error);
      }
      var (applet, next) := a.value;
      PrependAppletsStep(applets, applet, AppletsFrom(section, next, count - i - 1));
      applets := applets + [applet];
      offset := next;
      i := i + 1;
    }
    assert applets + [] == applets;
    return Success(applets);
  }

  /** One turn of the loop: read the AID length, the AID and the install
      method offset, and step over them. */
  method ReadApplet(section: seq<byte>, offset: nat) returns (r: Result<(AppletInfo, nat), CapError>)
    ensures r == AppletAt(section, offset)
  {
    if offset >= |section| {
      return Failure(MissingAidLength);
    }
    var aidLength := section[offset];
    var start := offset + 1 + aidLength;
    if start > |section| {
      return Failure(MissingInstallMethod);
    }
    var installMethod := InstallMethodAt(section, start);
    return Success((AppletInfo(section[offset + 1..start], installMethod), offset + 3 + aidLength));
  }

  /** The applet records of a well-formed component, in its own layout. */
  function AppletRecords(applets: seq<AppletInfo>): seq<byte>
  {
    if applets == [] then [] else AppletRecord(applets[0]) + AppletRecords(applets[1..])
  }

  /** One record: the AID length, the AID, the install method offset. */
  function AppletRecord(a: AppletInfo): (r: seq<byte>)
    ensures |r| == 3 + |a.aid|
  {
    [|a.aid| % 256] + a.aid + U16(if a.installMethod.Some? then a.installMethod.value else 0)
  }

  /** An applet the Applet component can hold. */
  predicate Encodable(a: AppletInfo)
  {
    |a.aid| < 256 && a.installMethod.Some? && a.installMethod.value < 65536
  }

  /** Every applet of the list is encodable. */
  predicate AllEncodable(applets: seq<AppletInfo>)
  {
    applets == [] || (Encodable(applets[0]) && AllEncodable(applets[1..]))
  }

  /** A well-formed applet record written after `prefix` reads back as that
      applet, and the next record starts after it. */
  lemma AppletAfter(section: seq<byte>, prefix: seq<byte>, a: AppletInfo, tail: seq<byte>)
    requires Encodable(a) && section == prefix + AppletRecord(a) + tail
    ensures AppletAt(section, |prefix|) == Success((a, |prefix| + |AppletRecord(a)|))
  {
    var m := a.installMethod.value;
    var o := |prefix|;
    var start := o + 1 + |a.aid|;
    assert section[o] == |a.aid|;
    assert section[o + 1..start] == a.aid;
    assert section[start] == U16(m)[0] && section[start + 1] == U16(m)[1];
    U16Octets(m);
  }

  /** Reading `count` records starting with one that parses. */
  lemma AppletsFromStep(section: seq<byte>, offset: nat, count: nat, a: AppletInfo, next: nat)
    requires count > 0 && AppletAt(section, offset) == Success((a, next))
    ensures AppletsFrom(section, offset, count) == PrependApplets([a], AppletsFrom(section, next, count - 1))
  {
  }

  /** Well-formed records written after `prefix` parse to their applets. */
  lemma {:induction false} AppletsAfter(section: seq<byte>, prefix: seq<byte>, applets: seq<AppletInfo>)
    requires AllEncodable(applets) && section == prefix + AppletRecords(applets)
    ensures AppletsFrom(section, |prefix|, |applets|) == Success(applets)
    decreases |applets|
  {
    if applets != [] {
      assert section == prefix + AppletRecord(applets[0]) + AppletRecords(applets[1..]);
      AppletAfter(section, prefix, applets[0], AppletRecords(applets[1..]));
      AppletsFromStep(section, |prefix|, |applets|, applets[0], |prefix + AppletRecord(applets[0])|);
      AppletsAfter(section, prefix + AppletRecord(applets[0]), applets[1..]);
      assert |applets[1..]| == |applets| - 1;
      assert [applets[0]] + applets[1..] == applets;
      assert PrependApplets([applets[0]], Success(applets[1..])) == Success(applets);
    }
  }

  /** An Applet component holding a count and well-formed records parses
      to exactly those applets. */
  lemma ParseAppletsRoundTrip(components: Components, applets: seq<AppletInfo>)
    requires |applets| < 256 && AllEncodable(applets)
    requires Some(Applet) in components && components[Some(Applet)] == [|applets|] + AppletRecords(applets)
    ensures AppletsOf(components) == Success(applets)
  {
    AppletsAfter(components[Some(Applet)], [|applets|], applets);
  }

  /** The Applet component of the loader's test package. */
  lemma AppletVector(components: Components)
    requires Some(Applet) in components
    requires components[Some(Applet)] == [0x01, 0x07, 0x19, 0x83, 0x12, 0x29, 0x10, 0xDE, 0xAD, 0x00, 0x08]
    ensures AppletsOf(components) == Success([AppletInfo([0x19, 0x83, 0x12, 0x29, 0x10, 0xDE, 0xAD], Some(8))])
  {
    var applet := AppletInfo([0x19, 0x83, 0x12, 0x29, 0x10, 0xDE, 0xAD], Some(8));
    assert AppletRecords([applet]) == AppletRecord(applet) + [];
    assert AppletRecord(applet) == [0x07] + applet.aid + [0x00, 0x08];
    assert AllEncodable([applet]);
    assert [1] + AppletRecords([applet]) == [0x01, 0x07, 0x19, 0x83, 0x12, 0x29, 0x10, 0xDE, 0xAD, 0x00, 0x08];
    ParseAppletsRoundTrip(components, [applet]);
  }

  // ---------------------------------------------------------------------
  // cap_load_data

  datatype LoadData = LoadData(data: seq<byte>, applets: seq<AppletInfo>)

  /** cap_load_data: the serialized components and the applets. */
  method CapLoadData(entries: seq<seq<byte>>) returns (r: Result<LoadData, CapError>)
    ensures LoadEntries(entries, map[]).Failure? ==> r == Failure(LoadEntries(entries, map[]).error)
    ensures LoadEntries(entries, map[]).Success? ==>
      var components := LoadEntries(entries, map[]).value;
      (r.Success? <==> AppletsOf(components).Success?)
      && (r.Success? ==> r.value == LoadData(SerializeComponents(components), AppletsOf(components).value))
  {
    var components :- LoadCap(entries);
    var applets :- ParseApplets(components);
    return Success(LoadData(SerializeComponents(components), applets));
  }
}
