/** The recursive TLV decoder: a byte string is cut into records, and the records that
    may hold records are cut again, down to a fixed depth. */
module TlvDecoder {
  import opened Wrappers
  import opened MachineInts
  import opened IntegerCodec
  import opened TlvFrame

  const MAX_TLV_DEPTH: nat := 8

  datatype Record = Record(typ: TlvType, id: Uint16, value: seq<Byte>, children: seq<Record>)

  // --- Tiling --------------------------------------------------------------

  predicate AllFramed(fs: seq<Frame>) {
    forall i :: 0 <= i < |fs| ==> WellFramed(fs[i])
  }

  /** The bytes of a list of records laid end to end. */
  function Tile(fs: seq<Frame>): seq<Byte>
    requires AllFramed(fs)
  {
    if fs == [] then [] else
    assert WellFramed(fs[0]);
    FrameBytes(fs[0]) + Tile(fs[1..])
  }

  function FrameSize(f: Frame): nat {
    HeaderSize(f) + |f.value|
  }

  /** The records a byte string is made of, if it is made of records. */
  function Frames(b: seq<Byte>): Option<seq<Frame>>
    decreases |b|
  {
    if b == [] then Some([]) else
    var p := ParseFrame(b);
    if p.None? then None else
    ParseSound(b);
    var rest := Frames(b[FrameSize(p.value)..]);
    if rest.None? then None else Some([p.value] + rest.value)
  }

  lemma FramesCons(b: seq<Byte>)
    requires b != [] && Frames(b).Some?
    ensures ParseFrame(b).Some?
    ensures var f := ParseFrame(b).value;
      && WellFramed(f) && FrameSize(f) <= |b|
      && b == FrameBytes(f) + b[FrameSize(f)..]
      && Frames(b[FrameSize(f)..]).Some?
      && Frames(b).value == [f] + Frames(b[FrameSize(f)..]).value
  {
    hide ParseFrame, Header;
    ParseSound(b);
    var f := ParseFrame(b).value;
    PrefixRest(FrameBytes(f), b);
  }

  lemma PrefixRest<T>(x: seq<T>, b: seq<T>)
    requires x <= b
    ensures b == x + b[|x|..]
  {
  }

  lemma {:induction false} FramesSound(b: seq<Byte>)
    requires Frames(b).Some?
    ensures AllFramed(Frames(b).value) && Tile(Frames(b).value) == b
    decreases |b|
  {
    if b != [] {
      FramesCons(b);
      var f := ParseFrame(b).value;
      var rest := b[FrameSize(f)..];
      FramesSound(rest);
      TileCons(f, Frames(rest).value);
    }
  }

  lemma TileCons(f: Frame, fs: seq<Frame>)
    requires WellFramed(f) && AllFramed(fs)
    ensures AllFramed([f] + fs) && Tile([f] + fs) == FrameBytes(f) + Tile(fs)
  {
    assert ([f] + fs)[1..] == fs;
  }

  lemma FrameLength(f: Frame)
    requires WellFramed(f)
    ensures |FrameBytes(f)| == FrameSize(f) && FrameSize(f) >= 2
  {
  }

  lemma {:induction false} FramesComplete(fs: seq<Frame>)
    requires AllFramed(fs)
    ensures Frames(Tile(fs)) == Some(fs)
  {
    if fs != [] {
      hide ParseFrame, FrameBytes, WellFramed;
      var b := Tile(fs);
      FrameLength(fs[0]);
      ParseComplete(fs[0], Tile(fs[1..]));
      FramesComplete(fs[1..]);
      assert b[FrameSize(fs[0])..] == Tile(fs[1..]);
      assert fs == [fs[0]] + fs[1..];
    }
  }

  /** A byte string is made of records in at most one way. */
  lemma TilingUnique(fs: seq<Frame>, gs: seq<Frame>)
    requires AllFramed(fs) && AllFramed(gs) && Tile(fs) == Tile(gs)
    ensures fs == gs
  {
    FramesComplete(fs);
    FramesComplete(gs);
  }

  // --- The record tree -----------------------------------------------------

  predicate Nests(t: TlvType) {
    t.ObjectInstance? || t.MultiResource?
  }

  function Children(f: Frame, depth: nat): seq<Record>
    decreases MAX_TLV_DEPTH - depth, 0
  {
    if !Nests(f.typ) || depth >= MAX_TLV_DEPTH then []
    else match Frames(f.value)
      case None => []
      case Some(inner) => Tree(inner, depth + 1)
  }

  function Tree(fs: seq<Frame>, depth: nat): (rs: seq<Record>)
    ensures |rs| == |fs|
    decreases MAX_TLV_DEPTH - depth, 1, |fs|
  {
    if fs == [] then []
    else [Record(fs[0].typ, fs[0].id, fs[0].value, Children(fs[0], depth))] + Tree(fs[1..], depth)
  }

  function DecodeAt(data: seq<Byte>, depth: nat): Result<seq<Record>> {
    if depth > MAX_TLV_DEPTH then Err(DecodingError)
    else match Frames(data)
      case None => Err(DecodingError)
      case Some(fs) => Ok(Tree(fs, depth))
  }

  function Decode(data: seq<Byte>): Result<seq<Record>> {
    DecodeAt(data, 0)
  }

  lemma {:induction false} TreeAppend(fs: seq<Frame>, f: Frame, depth: nat)
    ensures Tree(fs + [f], depth) == Tree(fs, depth) + [Record(f.typ, f.id, f.value, Children(f, depth))]
  {
    if fs != [] {
      assert (fs + [f])[1..] == fs[1..] + [f];
      TreeAppend(fs[1..], f, depth);
    }
  }

  lemma {:induction false} TreeAt(fs: seq<Frame>, depth: nat, i: nat)
    requires i < |fs|
    ensures Tree(fs, depth)[i] == Record(fs[i].typ, fs[i].id, fs[i].value, Children(fs[i], depth))
  {
    if i > 0 {
      TreeAt(fs[1..], depth, i - 1);
    }
  }

  /** A record's children, in terms of the recursive call the decoder makes for them. */
  lemma ChildrenDecoded(f: Frame, depth: nat)
    requires depth <= MAX_TLV_DEPTH
    ensures Children(f, depth) ==
      if !Nests(f.typ) then []
      else match DecodeAt(f.value, depth + 1) case Ok(kids) => kids case Err(_) => []
  {
  }

  // --- The decoder's own loops ---------------------------------------------

  /** The records found so far, and those still to come, are the records of the input. */
  ghost predicate Progress(data: seq<Byte>, done: seq<Frame>, todo: Option<seq<Frame>>) {
    Frames(data) == if todo.None? then None else Some(done + todo.value)
  }

  lemma Advance(data: seq<Byte>, done: seq<Frame>, rest: seq<Byte>)
    requires rest != [] && Progress(data, done, Frames(rest))
    ensures ParseFrame(rest).None? ==> Frames(data).None?
    ensures ParseFrame(rest).Some? ==>
      var f := ParseFrame(rest).value;
      FrameSize(f) <= |rest| && Progress(data, done + [f], Frames(rest[FrameSize(f)..]))
  {
    if ParseFrame(rest).Some? {
      ParseSound(rest);
      var f := ParseFrame(rest).value;
      var later := Frames(rest[FrameSize(f)..]);
      if later.Some? {
        assert done + ([f] + later.value) == (done + [f]) + later.value;
      }
    }
  }

  method DecodeImpl(data: seq<Byte>, depth: nat) returns (r: Result<seq<Record>>)
    ensures r == DecodeAt(data, depth)
    decreases if depth > MAX_TLV_DEPTH then 0 else MAX_TLV_DEPTH + 1 - depth, 1
  {
    hide ParseFrame, Children;
    if depth > MAX_TLV_DEPTH {
      return Err(DecodingError);
    }
    var records: seq<Record> := [];
    ghost var done: seq<Frame> := [];
    var pos := 0;
    assert data[0..] == data;
    assert Frames(data).Some? ==> [] + Frames(data).value == Frames(data).value;
    while pos < |data|
      invariant pos <= |data|
      invariant records == Tree(done, depth)
      invariant Progress(data, done, Frames(data[pos..]))
    {
      var result := ParseRecord(data[pos..], depth);
      Advance(data, done, data[pos..]);
      if result.Err? {
        return Err(result.error);
      }
      var (record, consumed) := result.value;
      ghost var f := ParseFrame(data[pos..]).value;
      TreeAppend(done, f, depth);
      assert data[pos..][consumed..] == data[pos + consumed..];
      done := done + [f];
      records := records + [record];
      pos := pos + consumed;
    }
    assert data[pos..] == [] && done + [] == done;
    r := Ok(records);
  }

  /** What parsing one record at a given depth yields: the record and the bytes it took. */
  function Parsed(data: seq<Byte>, depth: nat): Result<(Record, nat)> {
    match ParseFrame(data)
    case None => Err(DecodingError)
    case Some(f) => Ok((Record(f.typ, f.id, f.value, Children(f, depth)), FrameSize(f)))
  }

  method ParseRecord(data: seq<Byte>, depth: nat) returns (r: Result<(Record, nat)>)
    requires depth <= MAX_TLV_DEPTH
    ensures r == Parsed(data, depth)
    decreases MAX_TLV_DEPTH + 1 - depth, 0
  {
    hide ParseHead, Children;
    var len := |data|;
    if len == 0 {
      EmptyHead(data);
      return Err(DecodingError);
    }
    var head := ReadHead(data);
    if head.None? {
      return Err(DecodingError);
    }
    var typ, id, valueLength := head.value.typ, head.value.id, head.value.len;
    var pos := 1 + IdOctets(head.value.wide) + head.value.form;

    if pos + valueLength > len {
      return Err(DecodingError);
    }
    var value := data[pos..pos + valueLength];
    var children := [];
    ChildrenDecoded(ParseFrame(data).value, depth);
    if typ.ObjectInstance? || typ.MultiResource? {
      var nested := DecodeImpl(value, depth + 1);
      if nested.Ok? {
        children := nested.value;
      }
    }
    r := Ok((Record(typ, id, value, children), pos + valueLength));
  }

  lemma EmptyHead(data: seq<Byte>)
    requires data == []
    ensures ParseHead(data).None?
  {
  }

  /** The first half of the record parser: type byte, identifier, length. */
  method ReadHead(data: seq<Byte>) returns (head: Option<Head>)
    requires data != []
    ensures head == ParseHead(data)
  {
    var typeByte := data[0];
    var id16 := (typeByte / 32) % 2 != 0;
    var idField := ReadField(data, 1, if id16 then 2 else 1);
    if idField.None? {
      return None;
    }
    IdFits(data[1..1 + IdOctets(id16)]);
    var pos := 1 + IdOctets(id16);
    var lengthType := (typeByte / 8) % 4;
    var valueLength := typeByte % 8;
    if lengthType != 0 {
      var lengthField := ReadField(data, pos, lengthType);
      if lengthField.None? {
        return None;
      }
      valueLength := lengthField.value;
    }
    head := Some(Head(TypeOfCode(typeByte / 64), id16, idField.value, lengthType, typeByte % 8, valueLength));
  }

  /** The one- to three-octet big-endian fields of a record header, with the bounds test of each. */
  method ReadField(data: seq<Byte>, pos: nat, width: nat) returns (field: Option<nat>)
    requires 1 <= width <= 3
    ensures field == if pos + width <= |data| then Some(BigEndian(data[pos..pos + width])) else None
  {
    if pos + (width - 1) >= |data| {
      return None;
    }
    if width == 1 {
      Single(data, pos);
      field := Some(data[pos]);
    } else if width == 2 {
      Pair(data, pos);
      field := Some(data[pos] as int * 0x100 + data[pos + 1]);
    } else {
      Triple(data, pos);
      field := Some(data[pos] as int * 0x1_0000 + data[pos + 1] as int * 0x100 + data[pos + 2]);
    }
  }

  lemma Single(s: seq<Byte>, i: nat)
    requires i < |s|
    ensures BigEndian(s[i..i + 1]) == s[i]
  {
    assert s[i..i + 1] == [s[i]];
    assert [s[i]][..0] == [];
  }

  lemma Pair(s: seq<Byte>, i: nat)
    requires i + 1 < |s|
    ensures BigEndian(s[i..i + 2]) == s[i] as int * 0x100 + s[i + 1]
  {
    Single(s, i);
    assert s[i..i + 2][..1] == s[i..i + 1];
  }

  lemma Triple(s: seq<Byte>, i: nat)
    requires i + 2 < |s|
    ensures BigEndian(s[i..i + 3]) == s[i] as int * 0x1_0000 + s[i + 1] as int * 0x100 + s[i + 2]
  {
    Pair(s, i);
    assert s[i..i + 3][..2] == s[i..i + 2];
  }

  // --- Exact acceptance ----------------------------------------------------

  ghost predicate Tiled(b: seq<Byte>) {
    exists fs :: AllFramed(fs) && Tile(fs) == b
  }

  /** The decoder accepts exactly the byte strings tiled by well-framed records. */
  lemma ExactAcceptance(b: seq<Byte>)
    ensures Frames(b).Some? <==> Tiled(b)
    ensures Decode(b).Ok? <==> Tiled(b)
  {
    if Frames(b).Some? {
      FramesSound(b);
    }
    if fs :| AllFramed(fs) && Tile(fs) == b {
      FramesComplete(fs);
    }
  }

  /** And returns those records, in order. A record that can nest has its decoded value as
      children when the value is itself tiled and the depth cap leaves room; otherwise it has
      none, and an ill-formed inside never makes the outside fail. */
  lemma DecodedTree(fs: seq<Frame>, depth: nat)
    requires AllFramed(fs) && depth <= MAX_TLV_DEPTH
    ensures DecodeAt(Tile(fs), depth).Ok?
    ensures var rs := DecodeAt(Tile(fs), depth).value;
      && |rs| == |fs|
      && forall i :: 0 <= i < |fs| ==>
        && rs[i].typ == fs[i].typ && rs[i].id == fs[i].id && rs[i].value == fs[i].value
        && if Nests(fs[i].typ) && depth < MAX_TLV_DEPTH && Tiled(fs[i].value)
           then DecodeAt(fs[i].value, depth + 1) == Ok(rs[i].children)
           else rs[i].children == []
  {
    FramesComplete(fs);
    forall i | 0 <= i < |fs|
      ensures Tree(fs, depth)[i] == Record(fs[i].typ, fs[i].id, fs[i].value, Children(fs[i], depth))
      ensures Frames(fs[i].value).Some? <==> Tiled(fs[i].value)
    {
      TreeAt(fs, depth, i);
      ExactAcceptance(fs[i].value);
    }
  }

  // --- Size bounds ---------------------------------------------------------

  function CountRecords(rs: seq<Record>): nat {
    if rs == [] then 0 else 1 + CountRecords(rs[0].children) + CountRecords(rs[1..])
  }

  function StoredBytes(rs: seq<Record>): nat {
    if rs == [] then 0 else |rs[0].value| + StoredBytes(rs[0].children) + StoredBytes(rs[1..])
  }

  function Max(a: nat, b: nat): nat {
    if a < b then b else a
  }

  function Levels(rs: seq<Record>): nat {
    if rs == [] then 0 else Max(1 + Levels(rs[0].children), Levels(rs[1..]))
  }

  /** k layers of n bytes. */
  function Layers(k: nat, n: nat): nat {
    if k == 0 then 0 else n + Layers(k - 1, n)
  }

  lemma {:induction false} LayersAdd(k: nat, m: nat, n: nat)
    ensures Layers(k, m) + Layers(k, n) == Layers(k, m + n)
  {
    if k > 0 {
      LayersAdd(k - 1, m, n);
    }
  }

  lemma LayersStep(k: nat, n: nat)
    requires k > 0
    ensures Layers(k, n) == n + Layers(k - 1, n)
  {
  }

  lemma FirstAndRest(fs: seq<Frame>, depth: nat)
    requires AllFramed(fs) && fs != []
    ensures var rs, kids, rest := Tree(fs, depth), Children(fs[0], depth), Tree(fs[1..], depth);
      && CountRecords(rs) == 1 + CountRecords(kids) + CountRecords(rest)
      && Levels(rs) == Max(1 + Levels(kids), Levels(rest))
      && StoredBytes(rs) == |fs[0].value| + StoredBytes(kids) + StoredBytes(rest)
    ensures |Tile(fs)| == HeaderSize(fs[0]) + |fs[0].value| + |Tile(fs[1..])|
  {
    hide Children, FrameBytes;
    FrameLength(fs[0]);
    var rs := Tree(fs, depth);
    assert rs[0].children == Children(fs[0], depth) && rs[1..] == Tree(fs[1..], depth);
    assert WellFramed(fs[0]);
  }

  /** Bounds on everything the decoder keeps, by recursion over the tree. */
  lemma {:induction false} TreeBounds(fs: seq<Frame>, depth: nat)
    requires AllFramed(fs) && depth <= MAX_TLV_DEPTH
    ensures 2 * CountRecords(Tree(fs, depth)) <= |Tile(fs)|
    ensures Levels(Tree(fs, depth)) <= MAX_TLV_DEPTH + 1 - depth
    ensures StoredBytes(Tree(fs, depth)) <= Layers(MAX_TLV_DEPTH + 1 - depth, |Tile(fs)|)
    decreases MAX_TLV_DEPTH - depth, 1, |fs|
  {
    if fs != [] {
      TreeBounds(fs[1..], depth);
      ChildBounds(fs[0], depth);
      SumBounds(fs, depth);
    }
  }

  lemma SumBounds(fs: seq<Frame>, depth: nat)
    requires AllFramed(fs) && fs != [] && depth <= MAX_TLV_DEPTH
    requires var kids, rest, n, later := Children(fs[0], depth), Tree(fs[1..], depth), |fs[0].value|, |Tile(fs[1..])|;
      && 2 * CountRecords(kids) <= n && 2 * CountRecords(rest) <= later
      && Levels(kids) <= MAX_TLV_DEPTH - depth && Levels(rest) <= MAX_TLV_DEPTH + 1 - depth
      && StoredBytes(kids) <= Layers(MAX_TLV_DEPTH - depth, n)
      && StoredBytes(rest) <= Layers(MAX_TLV_DEPTH + 1 - depth, later)
    ensures 2 * CountRecords(Tree(fs, depth)) <= |Tile(fs)|
    ensures Levels(Tree(fs, depth)) <= MAX_TLV_DEPTH + 1 - depth
    ensures StoredBytes(Tree(fs, depth)) <= Layers(MAX_TLV_DEPTH + 1 - depth, |Tile(fs)|)
  {
    hide Tree, Children, Frames, CountRecords, Levels, StoredBytes, Tile, Layers, WellFramed, FrameBytes;
    var k, n, later := MAX_TLV_DEPTH + 1 - depth, |fs[0].value|, |Tile(fs[1..])|;
    FirstAndRest(fs, depth);
    LayersAdd(k, HeaderSize(fs[0]), n);
    LayersAdd(k, HeaderSize(fs[0]) + n, later);
    LayersStep(k, n);
  }

  lemma {:induction false} ChildBounds(f: Frame, depth: nat)
    requires depth <= MAX_TLV_DEPTH
    ensures 2 * CountRecords(Children(f, depth)) <= |f.value|
    ensures Levels(Children(f, depth)) <= MAX_TLV_DEPTH - depth
    ensures StoredBytes(Children(f, depth)) <= Layers(MAX_TLV_DEPTH - depth, |f.value|)
    decreases MAX_TLV_DEPTH - depth, 0
  {
    if Nests(f.typ) && depth < MAX_TLV_DEPTH && Frames(f.value).Some? {
      hide Tree, CountRecords, Levels, StoredBytes, Layers, Tile, AllFramed, ParseFrame;
      FramesSound(f.value);
      TreeBounds(Frames(f.value).value, depth + 1);
    } else {
      assert Children(f, depth) == [];
    }
  }

  /** Decoding is linear: every record costs at least two bytes, there are at most nine levels,
      and all stored values together are at most nine times the input. */
  lemma DecodeBounds(b: seq<Byte>)
    requires Decode(b).Ok?
    ensures CountRecords(Decode(b).value) <= |b| / 2
    ensures Levels(Decode(b).value) <= 9
    ensures StoredBytes(Decode(b).value) <= 9 * |b|
  {
    FramesSound(b);
    TreeBounds(Frames(b).value, 0);
    NineLayers(|b|);
  }

  lemma NineLayers(n: nat)
    ensures Layers(9, n) == 9 * n
  {
    assert Layers(1, n) == n + Layers(0, n);
    assert Layers(2, n) == 2 * n;
    assert Layers(4, n) == 2 * n + Layers(2, n);
    assert Layers(6, n) == 2 * n + Layers(4, n);
    assert Layers(8, n) == 2 * n + Layers(6, n);
  }

  /** k records, each inside the one before. */
  function Nested(k: nat): seq<Byte> {
    if k == 0 then [] else RecordBytes(ObjectInstance, 0, Nested(k - 1))
  }

  lemma {:induction false} NestedLevels(k: nat, depth: nat)
    requires |Nested(k)| < TWO_TO_24 && depth <= MAX_TLV_DEPTH
    ensures DecodeAt(Nested(k), depth).Ok?
    ensures Levels(DecodeAt(Nested(k), depth).value) == if k <= 9 - depth then k else 9 - depth
    decreases k
  {
    hide DecodeAt, Nested, Levels;
    NoLevels(depth);
    if k > 0 {
      NestedDecodes(k, depth);
      var rs := DecodeAt(Nested(k), depth).value;
      LevelsOfOne(rs[0]);
      assert rs == [rs[0]];
      if depth < MAX_TLV_DEPTH {
        NestedLevels(k - 1, depth + 1);
      }
    }
  }

  lemma NoLevels(depth: nat)
    requires depth <= MAX_TLV_DEPTH
    ensures Levels([]) == 0 && Nested(0) == [] && DecodeAt([], depth) == Ok([])
  {
  }

  lemma NestedDecodes(k: nat, depth: nat)
    requires 0 < k && |Nested(k)| < TWO_TO_24 && depth <= MAX_TLV_DEPTH
    ensures |Nested(k - 1)| < TWO_TO_24
    ensures DecodeAt(Nested(k), depth).Ok? && |DecodeAt(Nested(k), depth).value| == 1
    ensures var r := DecodeAt(Nested(k), depth).value[0];
      if depth >= MAX_TLV_DEPTH then r.children == []
      else match DecodeAt(Nested(k - 1), depth + 1) case Ok(kids) => r.children == kids case Err(_) => r.children == []
  {
    hide Frames, Header;
    var f := Chosen(ObjectInstance, 0, Nested(k - 1));
    SingleFrame(f);
    TreeAt([f], depth, 0);
    ChildrenDecoded(f, depth);
  }

  lemma LevelsOfOne(r: Record)
    ensures Levels([r]) == 1 + Levels(r.children)
  {
    assert [r][1..] == [];
  }

  lemma SingleFrame(f: Frame)
    requires f == Chosen(f.typ, f.id, f.value) && |FrameBytes(f)| < TWO_TO_24
    ensures |f.value| < TWO_TO_24 && Frames(FrameBytes(f)) == Some([f])
  {
    hide Frames, Header;
    ChosenWellFramed(f.typ, f.id, f.value);
    TileCons(f, []);
    assert [f] + [] == [f] && FrameBytes(f) + Tile([]) == FrameBytes(f);
    FramesComplete([f]);
  }

  /** The depth cap is nine levels exactly: deeper nesting is accepted and cut there. */
  lemma NestingDepth(k: nat)
    requires |Nested(k)| < TWO_TO_24
    ensures Decode(Nested(k)).Ok? && Levels(Decode(Nested(k)).value) == if k <= 9 then k else 9
  {
    NestedLevels(k, 0);
  }

  // --- Canonical form ------------------------------------------------------

  /** Encoding the top-level records of a tree one after the other. */
  function Reencode(rs: seq<Record>): seq<Byte> {
    if rs == [] then [] else RecordBytes(rs[0].typ, rs[0].id, rs[0].value) + Reencode(rs[1..])
  }

  /** The frames the encoder chooses for a list of records. */
  function ChosenFrames(rs: seq<Record>): (fs: seq<Frame>)
    ensures |fs| == |rs|
    ensures forall i :: 0 <= i < |rs| ==> fs[i] == Chosen(rs[i].typ, rs[i].id, rs[i].value)
  {
    if rs == [] then [] else [Chosen(rs[0].typ, rs[0].id, rs[0].value)] + ChosenFrames(rs[1..])
  }

  ghost predicate Encodable(rs: seq<Record>) {
    forall i :: 0 <= i < |rs| ==> |rs[i].value| < TWO_TO_24
  }

  lemma ChosenFramed(rs: seq<Record>)
    requires Encodable(rs)
    ensures AllFramed(ChosenFrames(rs))
  {
    forall i | 0 <= i < |rs|
      ensures WellFramed(ChosenFrames(rs)[i])
    {
      ChosenWellFramed(rs[i].typ, rs[i].id, rs[i].value);
    }
  }

  lemma {:induction false} ReencodeTiles(rs: seq<Record>)
    requires Encodable(rs) && AllFramed(ChosenFrames(rs))
    ensures Tile(ChosenFrames(rs)) == Reencode(rs)
  {
    if rs != [] {
      assert ChosenFrames(rs)[1..] == ChosenFrames(rs[1..]);
      ChosenFramed(rs[1..]);
      ReencodeTiles(rs[1..]);
    }
  }

  /** Concatenated encoder output decodes to exactly the records that went in. */
  lemma EncodedDecodes(rs: seq<Record>)
    requires Encodable(rs)
    ensures Frames(Reencode(rs)) == Some(ChosenFrames(rs))
    ensures Decode(Reencode(rs)) == Ok(Tree(ChosenFrames(rs), 0))
    ensures var out := Decode(Reencode(rs)).value;
      |out| == |rs| && forall i :: 0 <= i < |rs| ==>
        out[i].typ == rs[i].typ && out[i].id == rs[i].id && out[i].value == rs[i].value
  {
    ChosenFramed(rs);
    ReencodeTiles(rs);
    FramesComplete(ChosenFrames(rs));
    forall i | 0 <= i < |rs|
      ensures var t := Tree(ChosenFrames(rs), 0)[i];
              t.typ == rs[i].typ && t.id == rs[i].id && t.value == rs[i].value
    {
      TreeAt(ChosenFrames(rs), 0, i);
    }
  }

  lemma {:induction false} ReencodeOfTree(fs: seq<Frame>)
    requires AllFramed(fs)
    ensures Encodable(Tree(fs, 0))
    ensures |Reencode(Tree(fs, 0))| <= |Tile(fs)|
    ensures Tree(ChosenFrames(Tree(fs, 0)), 0) == Tree(fs, 0)
  {
    if fs != [] {
      var rs := Tree(fs, 0);
      ChosenShortest(fs[0]);
      ReencodeOfTree(fs[1..]);
      assert rs[1..] == Tree(fs[1..], 0);
      assert ChosenFrames(rs)[1..] == ChosenFrames(rs[1..]);
    }
  }

  /** Canonical form: re-encoding what was decoded is never longer, decodes to the same tree,
      and so re-encodes to itself; no byte string with that tree is shorter. */
  lemma Canonical(b: seq<Byte>)
    requires Decode(b).Ok?
    ensures var c := Reencode(Decode(b).value);
      && |c| <= |b|
      && Decode(c) == Decode(b)
      && Reencode(Decode(c).value) == c
  {
    FramesSound(b);
    var fs := Frames(b).value;
    ReencodeOfTree(fs);
    EncodedDecodes(Tree(fs, 0));
  }

  /** One encoded record decodes to itself exactly when its value is shorter than 2^24 bytes:
      beyond that the 24-bit length field drops the high bits. */
  lemma RecordRoundTrip(typ: TlvType, id: Uint16, value: seq<Byte>)
    ensures (exists kids :: Decode(RecordBytes(typ, id, value)) == Ok([Record(typ, id, value, kids)]))
       <==> |value| < TWO_TO_24
  {
    var b := RecordBytes(typ, id, value);
    if |value| < TWO_TO_24 {
      var rs := [Record(typ, id, value, [])];
      assert Reencode(rs) == b;
      EncodedDecodes(rs);
      var out := Decode(b).value;
      assert out == [out[0]] && out[0] == Record(typ, id, value, out[0].children);
    } else {
      forall kids | Decode(b) == Ok([Record(typ, id, value, kids)])
        ensures false
      {
        TopLevelValue(b, Record(typ, id, value, kids));
      }
    }
  }

  /** Every value the decoder returns at the top level is shorter than 2^24 bytes. */
  lemma DecodedEncodable(b: seq<Byte>)
    requires Decode(b).Ok?
    ensures Encodable(Decode(b).value)
  {
    FramesSound(b);
    ReencodeOfTree(Frames(b).value);
  }

  lemma TopLevelValue(b: seq<Byte>, r: Record)
    requires Decode(b) == Ok([r])
    ensures |r.value| < TWO_TO_24
  {
    DecodedEncodable(b);
    assert [r][0] == r;
  }
}
