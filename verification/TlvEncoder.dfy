/** Typed resource values over TLV records: encoding, decoding, and what survives the trip. */
module TlvEncoder {
  import opened Wrappers
  import opened MachineInts
  import opened IntegerCodec
  import opened TlvFrame
  import opened TlvDecoder
  import opened ObjectPaths

  /** system_clock ticks; the tick is a nanosecond. */
  const TICKS_PER_SECOND: int := 1_000_000_000

  datatype ResourceType =
    | TypeNone | TypeBoolean | TypeInteger | TypeUnsigned | TypeFloat
    | TypeString | TypeOpaque | TypeTime | TypeObjectLink

  /** A resource value; a double is its 64-bit pattern and a string its bytes. */
  datatype ResourceValue =
    | Empty
    | Boolean(b: bool)
    | Integer(i: Int64)
    | Unsigned(u: Uint64)
    | Float(bits: Uint64)
    | Text(chars: seq<Byte>)
    | Opaque(bytes: seq<Byte>)
    | Time(ticks: Int64)
    | Link(path: ObjectPath)

  function TypeOfValue(v: ResourceValue): ResourceType {
    match v
    case Empty => TypeNone
    case Boolean(_) => TypeBoolean
    case Integer(_) => TypeInteger
    case Unsigned(_) => TypeUnsigned
    case Float(_) => TypeFloat
    case Text(_) => TypeString
    case Opaque(_) => TypeOpaque
    case Time(_) => TypeTime
    case Link(_) => TypeObjectLink
  }

  // --- Values to bytes and back --------------------------------------------

  /** Division that truncates toward zero. */
  function TruncDiv(n: int, d: int): int
    requires d > 0
  {
    if n >= 0 then n / d else -((-n) / d)
  }

  function SerializeLink(p: ObjectPath): seq<Byte> {
    Octets(p.objectId, 2) + Octets(if p.instanceId.Some? then p.instanceId.value else 0, 2)
  }

  function SerializeValue(v: ResourceValue): seq<Byte> {
    match v
    case Empty => []
    case Boolean(b) => [if b then 1 else 0]
    case Integer(i) => SerializeInt(i)
    case Unsigned(u) => SerializeUint(u)
    case Float(bits) => Octets(bits, 8)
    case Text(chars) => chars
    case Opaque(bytes) => bytes
    case Time(ticks) => SerializeInt(TruncDiv(ticks, TICKS_PER_SECOND))
    case Link(path) => SerializeLink(path)
  }

  /** Decoding for an expected type. A four-byte float widens to a double, which is left to
      the parameter `widen`; a time far outside the clock's range wraps. */
  function DecodeValue(data: seq<Byte>, expected: ResourceType, widen: Uint32 -> Uint64): Result<ResourceValue> {
    match expected
    case TypeBoolean => if data == [] then Err(DecodingError) else Ok(Boolean(data[0] != 0))
    case TypeInteger =>
      (match DecodeInt(data) case Ok(i) => Ok(Integer(i)) case Err(e) => Err(e))
    case TypeUnsigned =>
      if 1 <= |data| <= 8 then TwosComplementFits(data); Ok(Unsigned(BigEndian(data))) else Err(DecodingError)
    case TypeFloat =>
      if |data| == 4 then FloatFits(data); Ok(Float(widen(BigEndian(data))))
      else if |data| == 8 then TwosComplementFits(data); Ok(Float(BigEndian(data)))
      else Err(DecodingError)
    case TypeString => Ok(Text(data))
    case TypeOpaque => Ok(Opaque(data))
    case TypeTime =>
      (match DecodeInt(data)
       case Ok(seconds) => Ok(Time(WrapInt64(seconds * TICKS_PER_SECOND)))
       case Err(e) => Err(e))
    case TypeObjectLink =>
      if |data| != 4 then Err(DecodingError)
      else
        IdFits(data[..2]);
        IdFits(data[2..]);
        Ok(Link(InstancePath(BigEndian(data[..2]), BigEndian(data[2..]))))
    case TypeNone => Ok(Empty)
  }

  lemma FloatFits(data: seq<Byte>)
    requires |data| == 4
    ensures BigEndian(data) < TWO_TO_32
  {
    BigEndianBound(data);
    PowerTable();
  }

  /** What a value comes back as: a time loses its fraction of a second, a link everything
      below the instance. */
  function Coarsened(v: ResourceValue): ResourceValue {
    match v
    case Time(ticks) => Time(TruncTicks(ticks))
    case Link(p) => Link(InstancePath(p.objectId, if p.instanceId.Some? then p.instanceId.value else 0))
    case _ => v
  }

  function TruncTicks(ticks: Int64): Int64 {
    TruncDiv(ticks, TICKS_PER_SECOND) * TICKS_PER_SECOND
  }

  lemma ValueRoundTrip(v: ResourceValue, widen: Uint32 -> Uint64)
    ensures DecodeValue(SerializeValue(v), TypeOfValue(v), widen) == Ok(Coarsened(v))
  {
    hide SerializeInt, SerializeUint, Octets, TwosComplement, BigEndian, TruncDiv;
    match v {
      case Integer(i) => IntRoundTrip(i);
      case Unsigned(u) => UintRoundTrip(u);
      case Float(bits) => FloatRoundTrip(bits);
      case Time(ticks) => TimeRoundTrip(ticks);
      case Link(p) => LinkOctets(p);
      case _ =>
    }
  }

  lemma FloatRoundTrip(bits: Uint64)
    ensures BigEndian(Octets(bits, 8)) == bits
  {
    OctetsValue(bits, 8);
    PowerTable();
  }

  lemma TimeRoundTrip(ticks: Int64)
    ensures DecodeInt(SerializeValue(Time(ticks))).Ok?
    ensures WrapInt64(DecodeInt(SerializeValue(Time(ticks))).value * TICKS_PER_SECOND) == TruncTicks(ticks)
  {
    var seconds := TruncDiv(ticks, TICKS_PER_SECOND);
    IntRoundTrip(seconds);
    WrapSmall(TruncTicks(ticks));
  }

  lemma WrapSmall(n: Int64)
    ensures WrapInt64(n) == n
  {
  }

  lemma LinkOctets(p: ObjectPath)
    ensures var s := SerializeLink(p);
      && |s| == 4
      && BigEndian(s[..2]) == p.objectId
      && BigEndian(s[2..]) == if p.instanceId.Some? then p.instanceId.value else 0
  {
    hide Octets, BigEndian;
    var iid: Uint16 := if p.instanceId.Some? then p.instanceId.value else 0;
    PairOctets(p.objectId);
    PairOctets(iid);
    assert SerializeLink(p)[..2] == Octets(p.objectId, 2);
    assert SerializeLink(p)[2..] == Octets(iid, 2);
  }

  lemma PairOctets(v: Uint16)
    ensures |Octets(v, 2)| == 2 && BigEndian(Octets(v, 2)) == v
  {
    hide Octets, BigEndian;
    OctetsValue(v, 2);
    PowerTable();
    QuotientUnique(v, TWO_TO_16, 0, v);
  }

  /** Which bytes decode for an expected type, and to what where a value can be written in more than
      one way: any first byte but zero is true, and a float may have four bytes. */
  lemma DecodeAccepts(data: seq<Byte>, expected: ResourceType, widen: Uint32 -> Uint64)
    ensures var r := DecodeValue(data, expected, widen);
      && (r.Ok? <==>
            && (expected == TypeBoolean ==> |data| >= 1)
            && (expected in {TypeInteger, TypeUnsigned, TypeTime} ==> 1 <= |data| <= 8)
            && (expected == TypeFloat ==> |data| in {4, 8})
            && (expected == TypeObjectLink ==> |data| == 4))
      && (r.Err? ==> r == Err(DecodingError))
      && (r.Ok? ==> TypeOfValue(r.value) == expected)
      && (r.Ok? && expected == TypeBoolean ==> (r.value.b <==> 1 <= data[0] <= 255))
      && (r.Ok? && expected == TypeInteger ==> r.value.i == TwosComplement(data))
      && (r.Ok? && expected == TypeUnsigned ==> r.value.u == BigEndian(data))
      && (r.Ok? && expected == TypeFloat && |data| == 8 ==> r.value.bits == BigEndian(data))
      && (r.Ok? && expected == TypeFloat && |data| == 4 ==>
            exists single: Uint32 :: single == BigEndian(data) && r.value.bits == widen(single))
  {
    hide TwosComplement, BigEndian, WrapInt64;
    if |data| == 4 {
      FloatFits(data);
    }
  }

  /** A value comes back unchanged exactly when it is not a time with a fraction of a second
      nor a link that names no instance, or something below one. */
  lemma ValueExact(v: ResourceValue, widen: Uint32 -> Uint64)
    ensures DecodeValue(SerializeValue(v), TypeOfValue(v), widen) == Ok(v) <==>
            (&& (v.Time? ==> v.ticks % TICKS_PER_SECOND == 0)
             && (v.Link? ==> && v.path.instanceId.Some?
                             && v.path.resourceId.None? && v.path.resourceInstanceId.None?))
  {
    ValueRoundTrip(v, widen);
    if v.Time? {
      TruncExact(v.ticks);
    }
  }

  lemma TruncExact(n: int)
    ensures TruncDiv(n, TICKS_PER_SECOND) * TICKS_PER_SECOND == n <==> n % TICKS_PER_SECOND == 0
  {
  }

  // --- Records of values ---------------------------------------------------

  /** One resource to send: its identifier and value. */
  type Item = (Uint16, ResourceValue)

  function Records(typ: TlvType, items: seq<Item>): (rs: seq<Record>)
    ensures |rs| == |items|
    ensures forall i :: 0 <= i < |items| ==>
      rs[i] == Record(typ, items[i].0, SerializeValue(items[i].1), [])
  {
    if items == [] then []
    else [Record(typ, items[0].0, SerializeValue(items[0].1), [])] + Records(typ, items[1..])
  }

  /** The encoded items one after the other, as records of one type. */
  function Body(typ: TlvType, items: seq<Item>): seq<Byte> {
    Reencode(Records(typ, items))
  }

  lemma {:induction false} ReencodeAppend(rs: seq<Record>, r: Record)
    ensures Reencode(rs + [r]) == Reencode(rs) + RecordBytes(r.typ, r.id, r.value)
  {
    if rs == [] {
      assert rs + [r] == [r];
      assert [r][1..] == [];
    } else {
      assert (rs + [r])[1..] == rs[1..] + [r];
      ReencodeAppend(rs[1..], r);
    }
  }

  lemma BodyAppend(typ: TlvType, items: seq<Item>, i: nat)
    requires i < |items|
    ensures Body(typ, items[..i + 1])
         == Body(typ, items[..i]) + RecordBytes(typ, items[i].0, SerializeValue(items[i].1))
  {
    var r := Record(typ, items[i].0, SerializeValue(items[i].1), []);
    assert Records(typ, items[..i + 1]) == Records(typ, items[..i]) + [r];
    ReencodeAppend(Records(typ, items[..i]), r);
  }

  /** The encoders never fail, so their results are modelled without the error case. */
  method EncodeResource(rid: Uint16, value: ResourceValue) returns (r: seq<Byte>)
    ensures r == RecordBytes(Resource, rid, SerializeValue(value))
  {
    r := EncodeRecord(Resource, rid, SerializeValue(value));
  }

  method EncodeInstance(iid: Uint16, resources: seq<Item>) returns (r: seq<Byte>)
    ensures r == RecordBytes(ObjectInstance, iid, Body(Resource, resources))
  {
    var inner: seq<Byte> := [];
    for i := 0 to |resources|
      invariant inner == Body(Resource, resources[..i])
    {
      var res := EncodeResource(resources[i].0, resources[i].1);
      BodyAppend(Resource, resources, i);
      inner := inner + res;
    }
    assert resources[..|resources|] == resources;
    r := EncodeRecord(ObjectInstance, iid, inner);
  }

  /** Each item is encoded as a Resource and its first byte patched to say ResourceInstance. */
  method EncodeMultiResource(rid: Uint16, instances: seq<Item>) returns (r: seq<Byte>)
    ensures r == RecordBytes(MultiResource, rid, Body(ResourceInstance, instances))
  {
    var inner: seq<Byte> := [];
    for i := 0 to |instances|
      invariant inner == Body(ResourceInstance, instances[..i])
    {
      var data := EncodeResource(instances[i].0, instances[i].1);
      if data != [] {
        data := data[0 := Patched(data[0])];
      }
      PatchedRecord(instances[i].0, SerializeValue(instances[i].1));
      BodyAppend(ResourceInstance, instances, i);
      inner := inner + data;
    }
    assert instances[..|instances|] == instances;
    r := EncodeRecord(MultiResource, rid, inner);
  }

  /** `(b & 0x3F) | (ResourceInstance << 6)` */
  function Patched(b: Byte): Byte {
    b % 64 + TypeCode(ResourceInstance) * 64
  }

  /** Patching the type bits of an encoded Resource gives the encoded ResourceInstance. */
  lemma PatchedRecord(id: Uint16, value: seq<Byte>)
    ensures var data := RecordBytes(Resource, id, value);
            data != [] && data[0 := Patched(data[0])] == RecordBytes(ResourceInstance, id, value)
  {
    var f, g := Chosen(Resource, id, value), Chosen(ResourceInstance, id, value);
    var tail := Octets(id, IdOctets(f.wide)) + Octets(|value|, f.form) + value;
    assert FrameBytes(f) == [TypeByte(f.typ, f.wide, f.form, f.low)] + tail;
    assert FrameBytes(g) == [TypeByte(g.typ, g.wide, g.form, g.low)] + tail;
  }

  // --- Laws ----------------------------------------------------------------

  lemma {:induction false} BodyBounds(rs: seq<Record>)
    ensures forall i :: 0 <= i < |rs| ==> |rs[i].value| <= |Reencode(rs)|
  {
    if rs != [] {
      BodyBounds(rs[1..]);
      forall i | 0 <= i < |rs|
        ensures |rs[i].value| <= |Reencode(rs)|
      {
        if i > 0 {
          assert rs[i] == rs[1..][i - 1];
        }
      }
    }
  }

  /** What the receiver of an encoded list of items sees: one outer record whose children are
      the items in order, each carrying a value that decodes to the coarsened original. */
  ghost predicate Carries(data: seq<Byte>, outer: TlvType, id: Uint16, inner: TlvType, items: seq<Item>,
                          widen: Uint32 -> Uint64) {
    exists kids: seq<Record> {:trigger |kids|} ::
      && Decode(data) == Ok([Record(outer, id, Body(inner, items), kids)])
      && |kids| == |items|
      && forall i :: 0 <= i < |items| ==>
        && kids[i].typ == inner && kids[i].id == items[i].0 && kids[i].children == []
        && DecodeValue(kids[i].value, TypeOfValue(items[i].1), widen) == Ok(Coarsened(items[i].1))
  }

  /** Both composite encoders deliver their items whole exactly when the encoded body is
      shorter than 2^24 bytes. */
  lemma CompositeRoundTrip(outer: TlvType, id: Uint16, inner: TlvType, items: seq<Item>, widen: Uint32 -> Uint64)
    requires outer in {ObjectInstance, MultiResource} && inner in {Resource, ResourceInstance}
    ensures Carries(RecordBytes(outer, id, Body(inner, items)), outer, id, inner, items, widen)
       <==> |Body(inner, items)| < TWO_TO_24
  {
    var body := Body(inner, items);
    RecordRoundTrip(outer, id, body);
    if |body| < TWO_TO_24 {
      var kids :| Decode(RecordBytes(outer, id, body)) == Ok([Record(outer, id, body, kids)]);
      CompositeChildren(outer, id, inner, items);
      forall i | 0 <= i < |items|
        ensures DecodeValue(SerializeValue(items[i].1), TypeOfValue(items[i].1), widen) == Ok(Coarsened(items[i].1))
      {
        ValueRoundTrip(items[i].1, widen);
      }
      assert |kids| == |items|;
    }
  }

  lemma CompositeChildren(outer: TlvType, id: Uint16, inner: TlvType, items: seq<Item>)
    requires outer in {ObjectInstance, MultiResource} && inner in {Resource, ResourceInstance}
    requires |Body(inner, items)| < TWO_TO_24
    ensures Decode(RecordBytes(outer, id, Body(inner, items)))
         == Ok([Record(outer, id, Body(inner, items), Records(inner, items))])
  {
    var body, rs := Body(inner, items), Records(inner, items);
    BodyBounds(rs);
    EncodedDecodes(rs);
    var whole := [Record(outer, id, body, [])];
    assert Reencode(whole) == RecordBytes(outer, id, body);
    EncodedDecodes(whole);
    var f := Chosen(outer, id, body);
    assert ChosenFrames(whole) == [f];
    assert Children(f, 0) == Tree(ChosenFrames(rs), 1);
    forall i | 0 <= i < |rs|
      ensures Tree(ChosenFrames(rs), 1)[i] == rs[i]
    {
      TreeAt(ChosenFrames(rs), 1, i);
    }
    assert Tree(ChosenFrames(rs), 1) == rs;
    assert Tree([f], 0) == [Record(outer, id, body, rs)];
  }
}
