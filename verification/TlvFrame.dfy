/** One TLV record on the wire: type byte, identifier, length, value. */
module TlvFrame {
  import opened Wrappers
  import opened MachineInts
  import opened IntegerCodec

  datatype TlvType = ObjectInstance | ResourceInstance | MultiResource | Resource

  function TypeCode(t: TlvType): Byte {
    match t
    case ObjectInstance => 0
    case ResourceInstance => 1
    case MultiResource => 2
    case Resource => 3
  }

  function TypeOfCode(bits: nat): TlvType
    requires bits < 4
  {
    if bits == 0 then ObjectInstance
    else if bits == 1 then ResourceInstance
    else if bits == 2 then MultiResource
    else Resource
  }

  /** The values of one record that leave a choice to the sender: the width of the
      identifier, the number of length octets (0 means the length sits in the low three
      bits of the type byte) and, when those bits carry no length, their content. */
  datatype Frame = Frame(typ: TlvType, wide: bool, id: Uint16, form: nat, low: nat, value: seq<Byte>)

  /** A record the format allows. */
  predicate WellFramed(f: Frame) {
    && (!f.wide ==> f.id < 256)
    && f.form < 4
    && f.low < 8
    && (if f.form == 0 then |f.value| == f.low else |f.value| < Power256(f.form))
  }

  function TypeByte(typ: TlvType, wide: bool, form: nat, low: nat): Byte
    requires form < 4 && low < 8
  {
    TypeCode(typ) * 64 + (if wide then 32 else 0) + form * 8 + low
  }

  function IdOctets(wide: bool): nat {
    if wide then 2 else 1
  }

  function HeaderSize(f: Frame): nat {
    1 + IdOctets(f.wide) + f.form
  }

  function Header(f: Frame): (s: seq<Byte>)
    requires f.form < 4 && f.low < 8
    ensures |s| == HeaderSize(f)
  {
    [TypeByte(f.typ, f.wide, f.form, f.low)] + Octets(f.id, IdOctets(f.wide)) + Octets(|f.value|, f.form)
  }

  function FrameBytes(f: Frame): seq<Byte>
    requires f.form < 4 && f.low < 8
  {
    Header(f) + f.value
  }

  // --- Encoder -------------------------------------------------------------

  function LengthForm(len: nat): nat {
    if len < 8 then 0 else if len < 256 then 1 else if len < 65536 then 2 else 3
  }

  /** What the encoder sends: the narrow identifier when it fits, the fewest length octets. */
  function Chosen(typ: TlvType, id: Uint16, value: seq<Byte>): Frame {
    var len := |value|;
    Frame(typ, id > 255, id, LengthForm(len), if len < 8 then len else 0, value)
  }

  function RecordBytes(typ: TlvType, id: Uint16, value: seq<Byte>): seq<Byte> {
    FrameBytes(Chosen(typ, id, value))
  }

  method EncodeRecord(typ: TlvType, id: Uint16, value: seq<Byte>) returns (result: seq<Byte>)
    ensures result == RecordBytes(typ, id, value)
  {
    hide Octets;
    ghost var f := Chosen(typ, id, value);
    var typeByte := TypeCode(typ) * 64;
    var id16 := id > 255;
    if id16 {
      typeByte := typeByte + 0x20;
    }
    var len := |value|;
    if len < 8 {
      typeByte := typeByte + len;
    } else if len < 256 {
      typeByte := typeByte + 0x08;
    } else if len < 65536 {
      typeByte := typeByte + 0x10;
    } else {
      typeByte := typeByte + 0x18;
    }
    result := [typeByte];
    if id16 {
      result := result + [(id / 0x100) % 256];
      result := result + [id % 256];
    } else {
      result := result + [id];
    }
    assert result == [TypeByte(f.typ, f.wide, f.form, f.low)] + Octets(f.id, IdOctets(f.wide)) by {
      OctetList(id);
    }
    if 8 <= len < 256 {
      result := result + [len];
    } else if 256 <= len < 65536 {
      result := result + [(len / 0x100) % 256];
      result := result + [len % 256];
    } else if len >= 65536 {
      result := result + [(len / 0x1_0000) % 256];
      result := result + [(len / 0x100) % 256];
      result := result + [len % 256];
    }
    assert result == Header(f) by {
      OctetList(len);
    }
    result := result + value;
  }

  /** The shifts and masks of the source, written out. */
  lemma OctetList(v: nat)
    ensures Octets(v, 0) == []
    ensures Octets(v, 1) == [v % 256]
    ensures Octets(v, 2) == [(v / 0x100) % 256, v % 256]
    ensures Octets(v, 3) == [(v / 0x1_0000) % 256, (v / 0x100) % 256, v % 256]
  {
    hide Octets;
    DivDiv(v, 0x100);
    OctetsStep(v);
    OctetsStep(v / 0x100);
    OctetsStep((v / 0x100) / 0x100);
  }

  lemma OctetsStep(v: int)
    ensures Octets(v, 0) == []
    ensures Octets(v, 1) == [v % 256]
    ensures Octets(v, 2) == Octets(v / 256, 1) + [v % 256]
    ensures Octets(v, 3) == Octets(v / 256, 2) + [v % 256]
  {
    assert Octets(v, 1) == Octets(v / 256, 0) + [v % 256];
  }

  // --- Decoder -------------------------------------------------------------

  /** The header fields a byte string starts with, when it is long enough to hold them: type,
      identifier width and value, length form, low bits, value length. */
  datatype Head = Head(typ: TlvType, wide: bool, id: Uint16, form: nat, low: nat, len: nat)

  function ParseHead(b: seq<Byte>): (r: Option<Head>)
    ensures r.Some? ==> r.value.form < 4 && 1 + IdOctets(r.value.wide) + r.value.form <= |b|
  {
    if b == [] then None else
    var wide := (b[0] / 32) % 2 == 1;
    var form := (b[0] / 8) % 4;
    var at := 1 + IdOctets(wide);
    if |b| < at + form then None else
    IdFits(b[1..at]);
    Some(Head(TypeOfCode(b[0] / 64), wide, BigEndian(b[1..at]), form, b[0] % 8,
              if form == 0 then b[0] % 8 else BigEndian(b[at..at + form])))
  }

  /** The record a byte string starts with, when it starts with one. */
  function ParseFrame(b: seq<Byte>): Option<Frame> {
    match ParseHead(b)
    case None => None
    case Some(h) =>
      var at := 1 + IdOctets(h.wide) + h.form;
      if |b| < at + h.len then None
      else Some(Frame(h.typ, h.wide, h.id, h.form, h.low, b[at..at + h.len]))
  }

  lemma IdFits(s: seq<Byte>)
    requires |s| <= 2
    ensures BigEndian(s) < 0x1_0000
    ensures |s| == 1 ==> BigEndian(s) < 256
  {
    BigEndianBound(s);
    PowerTable();
  }

  lemma TypeByteParts(typ: TlvType, wide: bool, form: nat, low: nat)
    requires form < 4 && low < 8
    ensures var t := TypeByte(typ, wide, form, low);
            TypeOfCode(t / 64) == typ && ((t / 32) % 2 == 1) == wide && (t / 8) % 4 == form && t % 8 == low
  {
  }

  lemma TypeByteWhole(t: Byte)
    ensures TypeByte(TypeOfCode(t / 64), (t / 32) % 2 == 1, (t / 8) % 4, t % 8) == t
  {
  }

  /** Cutting a concatenation at its seams. */
  lemma Seams<T>(t: T, ids: seq<T>, lens: seq<T>, value: seq<T>, rest: seq<T>)
    ensures var b := [t] + ids + lens + value + rest;
            var at := 1 + |ids|;
            && b[0] == t && b[1..at] == ids && b[at..at + |lens|] == lens
            && b[at + |lens|..at + |lens| + |value|] == value
            && b[at + |lens| + |value|..] == rest
  {
  }

  /** Soundness: whatever the parser returns is framed by the format and is a prefix of the input. */
  lemma ParseSound(b: seq<Byte>)
    requires ParseFrame(b).Some?
    ensures var f := ParseFrame(b).value;
            WellFramed(f) && FrameBytes(f) <= b && |FrameBytes(f)| == HeaderSize(f) + |f.value|
  {
    hide Octets, BigEndian, ParseHead;
    var f := ParseFrame(b).value;
    var at := HeaderSize(f);
    HeadSound(b);
    assert Header(f) == b[..at];
    assert b[..at + |f.value|] == b[..at] + f.value;
  }

  lemma HeadSound(b: seq<Byte>)
    requires ParseHead(b).Some?
    ensures var h := ParseHead(b).value;
      var at := 1 + IdOctets(h.wide);
      && h.low < 8
      && (!h.wide ==> h.id < 256)
      && (if h.form == 0 then h.len == h.low else h.len < Power256(h.form))
      && b[..at + h.form] == [TypeByte(h.typ, h.wide, h.form, h.low)] + Octets(h.id, IdOctets(h.wide))
                             + Octets(h.len, h.form)
  {
    hide Octets, BigEndian;
    var h := ParseHead(b).value;
    var at := 1 + IdOctets(h.wide);
    var ids, lens := b[1..at], b[at..at + h.form];
    TypeByteWhole(b[0]);
    IdFits(ids);
    OctetsOfValue(ids);
    if h.form > 0 {
      BigEndianBound(lens);
      OctetsOfValue(lens);
    }
    OctetList(h.len);
    assert b[..at + h.form] == [b[0]] + ids + lens;
  }

  /** Completeness: every framed record at the front of the input is found, whatever follows. */
  lemma ParseComplete(f: Frame, rest: seq<Byte>)
    requires WellFramed(f)
    ensures ParseFrame(FrameBytes(f) + rest) == Some(f)
  {
    hide Octets, BigEndian;
    var t := TypeByte(f.typ, f.wide, f.form, f.low);
    var ids, lens := Octets(f.id, IdOctets(f.wide)), Octets(|f.value|, f.form);
    Seams(t, ids, lens, f.value, rest);
    assert FrameBytes(f) + rest == [t] + ids + lens + f.value + rest;
    TypeByteParts(f.typ, f.wide, f.form, f.low);
    IdValue(f);
    LengthValue(f);
  }

  lemma IdValue(f: Frame)
    requires WellFramed(f)
    ensures BigEndian(Octets(f.id, IdOctets(f.wide))) == f.id
  {
    OctetsValue(f.id, IdOctets(f.wide));
    PowerTable();
    QuotientUnique(f.id, Power256(IdOctets(f.wide)), 0, f.id);
  }

  lemma LengthValue(f: Frame)
    requires WellFramed(f)
    ensures f.form > 0 ==> BigEndian(Octets(|f.value|, f.form)) == |f.value|
  {
    OctetsValue(|f.value|, f.form);
    if f.form > 0 {
      QuotientUnique(|f.value|, Power256(f.form), 0, |f.value|);
    }
  }

  // --- Laws ----------------------------------------------------------------

  /** The encoder's choice is allowed by the format exactly for values shorter than 2^24. */
  lemma ChosenWellFramed(typ: TlvType, id: Uint16, value: seq<Byte>)
    ensures WellFramed(Chosen(typ, id, value)) <==> |value| < TWO_TO_24
  {
    PowerTable();
  }

  /** No allowed record with the same type, identifier and value is shorter. */
  lemma ChosenShortest(f: Frame)
    requires WellFramed(f)
    ensures |f.value| < TWO_TO_24
    ensures |RecordBytes(f.typ, f.id, f.value)| <= |FrameBytes(f)|
  {
    PowerTable();
    PowerMonotone(f.form, 3);
  }
}
