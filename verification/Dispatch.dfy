/** The client's read and write requests over its objects: path, TLV payload, object table. */
module Dispatch {
  import opened Wrappers
  import opened MachineInts
  import opened Splitting
  import opened ObjectPaths
  import opened UriOptions
  import opened TlvFrame
  import IntegerCodec
  import opened TlvDecoder
  import opened TlvEncoder
  import opened ObjectTables

  datatype CoapCode =
    | Created201 | Changed204 | Content205
    | BadRequest400 | NotFound404 | MethodNotAllowed405 | InternalError500

  /** A response; the code is None where the source leaves it unset. */
  datatype Response = Response(code: Option<CoapCode>, payload: seq<Byte>)

  type Objects = map<Uint16, Table>

  ghost predicate ValidObjects(objects: Objects) {
    forall oid :: oid in objects ==> objects[oid].Valid()
  }

  function ErrorToCoap(e: ErrorCode): CoapCode {
    match e
    case NotFound => NotFound404
    case MethodNotAllowed => MethodNotAllowed405
    case BadRequest => BadRequest400
    case _ => InternalError500
  }

  function CodeOf<T>(r: Result<T>, success: CoapCode): CoapCode {
    match r case Ok(_) => success case Err(e) => ErrorToCoap(e)
  }

  function Plain(code: CoapCode): Response {
    Response(Some(code), [])
  }

  // --- Reading -------------------------------------------------------------

  /** The resources of an instance that read successfully, in listing order. */
  function ReadableItems(t: Table, iid: Uint16, rids: seq<Uint16>): seq<Item> {
    if rids == [] then []
    else
      match ReadResource(t, iid, rids[0])
      case Ok(v) => [(rids[0], v)] + ReadableItems(t, iid, rids[1..])
      case Err(_) => ReadableItems(t, iid, rids[1..])
  }

  function Items(t: Table, iid: Uint16): seq<Item> {
    ReadableItems(t, iid, ListResources(t.kind))
  }

  function InstanceBytes(t: Table, iid: Uint16): seq<Byte> {
    RecordBytes(ObjectInstance, iid, Body(Resource, Items(t, iid)))
  }

  /** All instances of an object, in the order its container yields them. */
  function ObjectBytes(t: Table, order: seq<Uint16>): seq<Byte> {
    if order == [] then [] else InstanceBytes(t, order[0]) + ObjectBytes(t, order[1..])
  }

  function HandleRead(objects: Objects, path: ObjectPath, order: seq<Uint16>): Response
    requires path.Gapless()
  {
    if path.objectId !in objects then Plain(NotFound404)
    else
      var t := objects[path.objectId];
      if path.IsObject() then Response(Some(Content205), ObjectBytes(t, order))
      else if path.IsInstance() then
        (if path.instanceId.value !in t.instances then Plain(NotFound404)
         else Response(Some(Content205), InstanceBytes(t, path.instanceId.value)))
      else if path.IsResource() then
        (match ReadResource(t, path.instanceId.value, path.resourceId.value)
         case Err(e) => Plain(ErrorToCoap(e))
         case Ok(v) =>
           Response(Some(Content205), RecordBytes(Resource, path.resourceId.value, SerializeValue(v))))
      else Response(None, [])
  }

  // --- Writing -------------------------------------------------------------

  /** The type a resource is decoded as: the declared one, or string. */
  function ExpectedType(t: Table, rid: Uint16): ResourceType {
    match ResourceTypeOf(t.kind, rid) case Some(x) => x case None => TypeString
  }

  /** Decode one value and store it. A value that does not decode is a bad request. */
  function WriteBytes(t: Table, iid: Uint16, rid: Uint16, value: seq<Byte>, widen: Uint32 -> Uint64)
    : (Result<()>, Table)
  {
    match DecodeValue(value, ExpectedType(t, rid), widen)
    case Err(_) => (Err(BadRequest), t)
    case Ok(v) => WriteResource(t, iid, rid, v)
  }

  /** The Resource records of a payload, stored from left to right. */
  function WriteAll(t: Table, iid: Uint16, records: seq<Record>, widen: Uint32 -> Uint64): Table
    decreases |records|
  {
    if records == [] then t
    else
      var last := records[|records| - 1];
      var before := WriteAll(t, iid, records[..|records| - 1], widen);
      if last.typ != Resource then before
      else WriteBytes(before, iid, last.id, last.value, widen).1
  }

  function WriteTable(t: Table, path: ObjectPath, payload: seq<Byte>, widen: Uint32 -> Uint64): (Response, Table)
    requires path.Gapless()
  {
    match Decode(payload)
    case Err(_) => (Plain(BadRequest400), t)
    case Ok(records) =>
      if path.IsResource() then
        (if records == [] then (Plain(BadRequest400), t)
         else
           var (r, t') := WriteBytes(t, path.instanceId.value, path.resourceId.value, records[0].value, widen);
           (Plain(CodeOf(r, Changed204)), t'))
      else if path.IsInstance() then
        (Plain(Changed204), WriteAll(t, path.instanceId.value, records, widen))
      else if path.IsObject() then
        var (r, t') := CreateInstance(t, None);
        (Plain(CodeOf(r, Created201)), t')
      else (Response(None, []), t)
  }

  function HandleWrite(objects: Objects, path: ObjectPath, payload: seq<Byte>, widen: Uint32 -> Uint64)
    : (Response, Objects)
    requires path.Gapless()
  {
    if path.objectId !in objects then (Plain(NotFound404), objects)
    else
      var (r, t) := WriteTable(objects[path.objectId], path, payload, widen);
      (r, objects[path.objectId := t])
  }

  // --- The request handler -------------------------------------------------

  class RequestHandler {
    var objects: map<Uint16, ObjectStore>
    const widen: Uint32 -> Uint64

    /** Each object has its own store. */
    ghost predicate Valid()
      reads this, objects.Values
    {
      && (forall oid :: oid in objects ==> objects[oid].Valid())
      && (forall a, b :: a in objects && b in objects && objects[a] == objects[b] ==> a == b)
    }

    ghost function State(): Objects
      reads this, objects.Values
    {
      map oid | oid in objects :: objects[oid].State()
    }

    constructor (widen: Uint32 -> Uint64)
      ensures Valid() && State() == map[] && objects == map[]
    {
      objects := map[];
      this.widen := widen;
    }

    method EncodeInstanceTlv(store: ObjectStore, iid: Uint16) returns (bytes: seq<Byte>)
      requires store.Valid()
      ensures bytes == InstanceBytes(store.State(), iid)
    {
      var resources: seq<Item> := [];
      var rids := ListResources(store.kind);
      for k := 0 to |rids|
        invariant resources + ReadableItems(store.State(), iid, rids[k..]) == Items(store.State(), iid)
      {
        assert rids[k..][1..] == rids[k + 1..];
        var result := ReadResource(store.State(), iid, rids[k]);
        if result.Ok? {
          resources := resources + [(rids[k], result.value)];
        }
      }
      assert rids[|rids|..] == [] && resources + [] == resources;
      bytes := EncodeInstance(iid, resources);
    }

    /** The loop over an object's instances. */
    method ReadObject(store: ObjectStore, order: seq<Uint16>) returns (payload: seq<Byte>)
      requires store.Valid()
      ensures payload == ObjectBytes(store.State(), order)
    {
      hide InstanceBytes;
      payload := [];
      ghost var t := store.State();
      for k := 0 to |order|
        invariant payload + ObjectBytes(t, order[k..]) == ObjectBytes(t, order)
      {
        var data := EncodeInstanceTlv(store, order[k]);
        assert order[k..][1..] == order[k + 1..];
        assert payload + (data + ObjectBytes(t, order[k + 1..])) == (payload + data) + ObjectBytes(t, order[k + 1..]);
        payload := payload + data;
      }
      assert order[|order|..] == [] && payload + [] == payload;
    }

    method ProcessRead(path: ObjectPath, order: seq<Uint16>) returns (response: Response)
      requires Valid() && path.Gapless()
      ensures response == HandleRead(State(), path, order)
    {
      if path.objectId !in objects {
        return Plain(NotFound404);
      }
      var store := objects[path.objectId];
      if path.IsObject() {
        var payload := ReadObject(store, order);
        response := Response(Some(Content205), payload);
      } else if path.IsInstance() {
        if path.instanceId.value !in store.instances {
          return Plain(NotFound404);
        }
        var data := EncodeInstanceTlv(store, path.instanceId.value);
        response := Response(Some(Content205), data);
      } else if path.IsResource() {
        var result := ReadResource(store.State(), path.instanceId.value, path.resourceId.value);
        if result.Err? {
          return Plain(ErrorToCoap(result.error));
        }
        var encoded := EncodeResource(path.resourceId.value, result.value);
        response := Response(Some(Content205), encoded);
      } else {
        response := Response(None, []);
      }
    }

    method ProcessWrite(path: ObjectPath, payload: seq<Byte>) returns (response: Response)
      requires Valid() && path.Gapless()
      modifies if path.objectId in objects then {objects[path.objectId]} else {}
      ensures Valid() && objects == old(objects)
      ensures (response, State()) == HandleWrite(old(State()), path, payload, widen)
    {
      if path.objectId !in objects {
        return Plain(NotFound404);
      }
      var store := objects[path.objectId];
      response := WriteStore(store, path, payload);
      assert State() == old(State())[path.objectId := store.State()];
    }

    method WriteStore(store: ObjectStore, path: ObjectPath, payload: seq<Byte>) returns (response: Response)
      requires store.Valid() && path.Gapless()
      modifies store
      ensures store.Valid()
      ensures (response, store.State()) == WriteTable(old(store.State()), path, payload, widen)
    {
      var decoded := DecodeImpl(payload, 0);
      if decoded.Err? {
        return Plain(BadRequest400);
      }
      var records := decoded.value;
      if path.IsResource() {
        if records == [] {
          return Plain(BadRequest400);
        }
        var result := Store(store, path.instanceId.value, path.resourceId.value, records[0].value);
        response := Plain(CodeOf(result, Changed204));
      } else if path.IsInstance() {
        ghost var t := store.State();
        for k := 0 to |records|
          invariant store.Valid()
          invariant store.State() == WriteAll(t, path.instanceId.value, records[..k], widen)
        {
          assert records[..k + 1][..k] == records[..k];
          if records[k].typ == Resource {
            var _ := Store(store, path.instanceId.value, records[k].id, records[k].value);
          }
        }
        assert records[..|records|] == records;
        response := Plain(Changed204);
      } else if path.IsObject() {
        var result := store.Create(None);
        response := Plain(CodeOf(result, Created201));
      } else {
        response := Response(None, []);
      }
    }

    /** Type lookup, decoding and the store, as both write branches do them. */
    method Store(store: ObjectStore, iid: Uint16, rid: Uint16, value: seq<Byte>) returns (r: Result<()>)
      requires store.Valid()
      modifies store
      ensures store.Valid() && (r, store.State()) == WriteBytes(old(store.State()), iid, rid, value, widen)
    {
      var expected := TypeString;
      var declared := ResourceTypeOf(store.kind, rid);
      if declared.Some? {
        expected := declared.value;
      }
      var v := DecodeValue(value, expected, widen);
      if v.Err? {
        return Err(BadRequest);
      }
      r := store.Write(iid, rid, v.value);
    }
  }

  // --- Laws: one resource --------------------------------------------------

  /** A request whose Uri-Path values are not empty and contain no slash reaches a path exactly when
      they spell it: one numeral for each of its components, and anything after the fourth. */
  lemma RequestReachesPath(options: seq<CoapOption>, p: ObjectPath)
    requires var values := Values(options, 11);
      AllFree(values, '/') && forall i :: 0 <= i < |values| ==> values[i] != ""
    ensures var values := Values(options, 11);
      && (Parse(JoinedPath(values)) == Some(p) <==> Spells(JoinedPath(values), values, p))
      && (p.Gapless() && values == Numerals(Components(p)) ==> Parse(JoinedPath(values)) == Some(p))
  {
    hide Parse;
    var values := Values(options, URI_PATH);
    var path := JoinedPath(values);
    ParseGrammar(path, p);
    if values != [] {
      GatherIsJoin(values);
    }
    if p.Gapless() && values == Numerals(Components(p)) {
      PrintParse(p);
    }
    if parts :| Spells(path, parts, p) {
      SpelledOnce(path, parts, values);
    }
  }

  lemma SpelledOnce(path: string, parts: seq<string>, values: seq<string>)
    requires parts != [] && AllFree(parts, '/') && path == "/" + Join(parts, '/')
    requires path == JoinedPath(values)
    requires AllFree(values, '/') && forall i :: 0 <= i < |values| ==> values[i] != ""
    ensures parts == values
  {
    GatherIsJoin(values);
    assert path[1..] == Join(parts, '/') == Join(values, '/');
    SplitOfJoin(parts, '/');
    SplitOfJoin(values, '/');
  }

  /** Writing the payload of a successful resource read back to the same path answers Changed and
      leaves every object as it was, exactly when the encoded value is shorter than 2^24 bytes. */
  lemma ReadWriteBack(objects: Objects, path: ObjectPath, order: seq<Uint16>, widen: Uint32 -> Uint64)
    requires ValidObjects(objects) && path.Gapless() && path.IsResource()
    requires HandleRead(objects, path, order).code == Some(Content205)
    ensures HandleWrite(objects, path, HandleRead(objects, path, order).payload, widen) == (Plain(Changed204), objects)
       <==> |SerializeValue(ReadResource(objects[path.objectId], path.instanceId.value, path.resourceId.value).value)|
            < TWO_TO_24
  {
    var t := objects[path.objectId];
    var iid, rid := path.instanceId.value, path.resourceId.value;
    var v := ReadResource(t, iid, rid).value;
    if |SerializeValue(v)| < TWO_TO_24 {
      WriteBackShort(t, path, v, widen);
      assert objects[path.objectId := t] == objects;
    } else {
      WriteBackLong(t, path, v, widen);
    }
  }

  lemma WriteBackShort(t: Table, path: ObjectPath, v: ResourceValue, widen: Uint32 -> Uint64)
    requires t.Valid() && path.Gapless() && path.IsResource()
    requires ReadResource(t, path.instanceId.value, path.resourceId.value) == Ok(v)
    requires |SerializeValue(v)| < TWO_TO_24
    ensures WriteTable(t, path, RecordBytes(Resource, path.resourceId.value, SerializeValue(v)), widen)
         == (Plain(Changed204), t)
  {
    var iid, rid := path.instanceId.value, path.resourceId.value;
    ReadThenWrite(t.instances[iid], rid);
    RecordRoundTrip(Resource, rid, SerializeValue(v));
    ValueRoundTrip(v, widen);
    assert t.instances[iid := t.instances[iid]] == t.instances;
  }

  lemma WriteBackLong(t: Table, path: ObjectPath, v: ResourceValue, widen: Uint32 -> Uint64)
    requires t.Valid() && path.Gapless() && path.IsResource()
    requires ReadResource(t, path.instanceId.value, path.resourceId.value) == Ok(v)
    requires |SerializeValue(v)| >= TWO_TO_24
    ensures WriteTable(t, path, RecordBytes(Resource, path.resourceId.value, SerializeValue(v)), widen)
         != (Plain(Changed204), t)
  {
    var iid, rid := path.instanceId.value, path.resourceId.value;
    var payload := RecordBytes(Resource, rid, SerializeValue(v));
    ReadThenWrite(t.instances[iid], rid);
    assert v.Text? || v.Opaque?;
    if Decode(payload).Ok? && Decode(payload).value != [] {
      DecodedEncodable(payload);
      var cut := Decode(payload).value[0].value;
      WriteBytesEffect(t, iid, rid, cut, widen, rid);
      assert |cut| < TWO_TO_24;
    }
  }

  /** An integer written to a resource and read again comes back reduced to the width of the
      field; so it comes back as sent exactly when it was in range. */
  lemma WriteReadInteger(t: Table, iid: Uint16, rid: Uint16, i: Int64, widen: Uint32 -> Uint64)
    requires t.Valid() && iid in t.instances && Readable(t.kind, rid)
    requires ResourceTypeOf(t.kind, rid) == Some(TypeInteger)
    ensures var (r, t') := WriteBytes(t, iid, rid, SerializeValue(Integer(i)), widen);
      && r == Ok(())
      && ReadResource(t', iid, rid) == Ok(Integer(i % FieldModulus(t.kind, rid)))
      && (ReadResource(t', iid, rid) == Ok(Integer(i)) <==> 0 <= i < FieldModulus(t.kind, rid))
  {
    ValueRoundTrip(Integer(i), widen);
    IntegerStored(t.instances[iid], rid, i);
    InRange(i, FieldModulus(t.kind, rid));
  }

  lemma IntegerStored(inst: Instance, rid: Uint16, i: Int64)
    requires Readable(KindOf(inst), rid) && ResourceTypeOf(KindOf(inst), rid) == Some(TypeInteger)
    ensures WriteInstance(inst, rid, Integer(i)).Ok?
    ensures ReadInstance(WriteInstance(inst, rid, Integer(i)).value, rid)
         == Some(Integer(i % FieldModulus(KindOf(inst), rid)))
  {
    WriteAccepts(inst, rid, Integer(i));
    WriteThenRead(inst, rid, Integer(i), rid);
  }

  lemma InRange(i: int, m: int)
    requires m > 0
    ensures i % m == i <==> 0 <= i < m
  {
    if 0 <= i < m {
      IntegerCodec.QuotientUnique(i, m, 0, i);
    }
  }

  /** The response code is left unset exactly for a path below a resource, once the object and,
      for a write, the payload have been accepted. */
  lemma UnsetCode(objects: Objects, path: ObjectPath, order: seq<Uint16>, payload: seq<Byte>, widen: Uint32 -> Uint64)
    requires path.Gapless()
    ensures HandleRead(objects, path, order).code.None? <==> path.objectId in objects && path.IsResourceInstance()
    ensures HandleWrite(objects, path, payload, widen).0.code.None? <==>
            path.objectId in objects && path.IsResourceInstance() && Decode(payload).Ok?
  {
  }

  // --- Laws: one instance --------------------------------------------------

  /** The value the last accepted Resource record with this identifier leaves behind. Whether a
      record is accepted depends on the kind of object alone. */
  function LastAccepted(k: Kind, records: seq<Record>, rid: Uint16, widen: Uint32 -> Uint64): Option<ResourceValue>
    decreases |records|
  {
    if records == [] then None
    else
      var last := records[|records| - 1];
      if last.typ == Resource && last.id == rid && Accepted(k, rid, last.value, widen).Some?
      then Accepted(k, rid, last.value, widen)
      else LastAccepted(k, records[..|records| - 1], rid, widen)
  }

  function Accepted(k: Kind, rid: Uint16, value: seq<Byte>, widen: Uint32 -> Uint64): Option<ResourceValue> {
    if !Readable(k, rid) || ResourceTypeOf(k, rid).None? then None
    else match DecodeValue(value, ResourceTypeOf(k, rid).value, widen)
      case Ok(v) => if TypeOfValue(v) == ResourceTypeOf(k, rid).value then Some(Stored(k, rid, v)) else None
      case Err(_) => None
  }

  lemma WriteBytesEffect(t: Table, iid: Uint16, rid: Uint16, value: seq<Byte>, widen: Uint32 -> Uint64, other: Uint16)
    requires t.Valid() && iid in t.instances
    ensures var (r, t') := WriteBytes(t, iid, rid, value, widen);
      && t'.Valid() && t'.kind == t.kind && t'.nextId == t.nextId && t'.instances.Keys == t.instances.Keys
      && (forall j :: j in t.instances && j != iid ==> t'.instances[j] == t.instances[j])
      && (r.Ok? <==> Accepted(t.kind, rid, value, widen).Some?)
      && (r.Err? ==> t' == t)
      && (r.Ok? ==> ReadResource(t', iid, rid) == Ok(Accepted(t.kind, rid, value, widen).value))
      && (other != rid ==> ReadResource(t', iid, other) == ReadResource(t, iid, other))
  {
    var decoded := DecodeValue(value, ExpectedType(t, rid), widen);
    if decoded.Ok? {
      WriteAccepts(t.instances[iid], rid, decoded.value);
      if WriteInstance(t.instances[iid], rid, decoded.value).Ok? {
        WriteThenRead(t.instances[iid], rid, decoded.value, other);
      }
    }
  }

  /** Writing an instance, resource by resource: the last accepted record for an identifier wins,
      a refused one changes nothing, and resources not named keep their values. Other instances,
      and the set of instances, are untouched. */
  lemma {:induction false} WriteAllEffect(t: Table, iid: Uint16, records: seq<Record>, widen: Uint32 -> Uint64,
                                          rid: Uint16)
    requires t.Valid() && iid in t.instances
    ensures var t' := WriteAll(t, iid, records, widen);
      && t'.Valid() && t'.kind == t.kind && t'.nextId == t.nextId && t'.instances.Keys == t.instances.Keys
      && (forall j :: j in t.instances && j != iid ==> t'.instances[j] == t.instances[j])
      && ReadResource(t', iid, rid) ==
         match LastAccepted(t.kind, records, rid, widen)
         case Some(v) => Ok(v)
         case None => ReadResource(t, iid, rid)
    decreases |records|
  {
    if records != [] {
      var before, last := records[..|records| - 1], records[|records| - 1];
      WriteAllEffect(t, iid, before, widen, rid);
      WriteBytesEffect(WriteAll(t, iid, before, widen), iid, last.id, last.value, widen, rid);
    }
  }

  /** On an instance that does not exist every record is refused, and the answer is still Changed. */
  lemma {:induction false} WriteAllAbsent(t: Table, iid: Uint16, records: seq<Record>, widen: Uint32 -> Uint64)
    requires iid !in t.instances
    ensures WriteAll(t, iid, records, widen) == t
    decreases |records|
  {
    if records != [] {
      WriteAllAbsent(t, iid, records[..|records| - 1], widen);
    }
  }

  /** The Resource records of a payload sent one by one, each as its own write to its own path. */
  function WriteEach(t: Table, oid: Uint16, iid: Uint16, records: seq<Record>, widen: Uint32 -> Uint64): Table
    decreases |records|
  {
    if records == [] then t
    else
      var last := records[|records| - 1];
      var before := WriteEach(t, oid, iid, records[..|records| - 1], widen);
      if last.typ != Resource then before
      else WriteTable(before, ResourcePath(oid, iid, last.id), RecordBytes(Resource, last.id, last.value), widen).1
  }

  /** An instance write is the sequence of the resource writes its payload spells out. */
  lemma {:induction false} InstanceWriteIsFold(t: Table, oid: Uint16, iid: Uint16, records: seq<Record>,
                                               widen: Uint32 -> Uint64)
    requires Encodable(records)
    ensures WriteAll(t, iid, records, widen) == WriteEach(t, oid, iid, records, widen)
    decreases |records|
  {
    if records != [] {
      var last := records[|records| - 1];
      InstanceWriteIsFold(t, oid, iid, records[..|records| - 1], widen);
      RecordRoundTrip(Resource, last.id, last.value);
    }
  }

  // --- Laws: reading an instance and writing it elsewhere ------------------

  /** An ObjectInstance record around the readable resources of an instance. */
  function DecodedInstance(t: Table, iid: Uint16): Record {
    Record(ObjectInstance, iid, Body(Resource, Items(t, iid)), Records(Resource, Items(t, iid)))
  }

  /** What a read of an instance carries: one ObjectInstance record whose children are its
      readable resources in listing order. */
  lemma InstanceReadDecodes(t: Table, iid: Uint16)
    requires |Body(Resource, Items(t, iid))| < TWO_TO_24
    ensures Decode(InstanceBytes(t, iid)) == Ok([DecodedInstance(t, iid)])
  {
    CompositeChildren(ObjectInstance, iid, Resource, Items(t, iid));
  }

  /** Writing that payload to an instance answers Changed and changes nothing, whatever the
      instance: only top-level Resource records are stored. */
  lemma InstanceReadWriteIgnored(t: Table, iid: Uint16, target: Table, path: ObjectPath, widen: Uint32 -> Uint64)
    requires |Body(Resource, Items(t, iid))| < TWO_TO_24
    requires path.Gapless() && path.IsInstance()
    ensures WriteTable(target, path, InstanceBytes(t, iid), widen) == (Plain(Changed204), target)
  {
    InstanceReadDecodes(t, iid);
    var records := Decode(InstanceBytes(t, iid)).value;
    assert |records| == 1 && records[0].typ == ObjectInstance && records[..0] == [];
    assert WriteAll(target, path.instanceId.value, records, widen) == target;
  }

  /** The unwrapped payload does copy: writing an instance's resources to an instance of the same
      kind makes every readable resource equal. */
  lemma BodyCopies(t: Table, iid: Uint16, target: Table, to: Uint16, widen: Uint32 -> Uint64, rid: Uint16)
    requires t.Valid() && target.Valid() && t.kind == target.kind
    requires iid in t.instances && to in target.instances
    requires Encodable(Records(Resource, Items(t, iid)))
    ensures Decode(Body(Resource, Items(t, iid))).Ok?
    ensures var (r, after) := WriteTable(target, InstancePath(0, to), Body(Resource, Items(t, iid)), widen);
      && r == Plain(Changed204)
      && ReadResource(after, to, rid) == ReadResource(t, iid, rid)
  {
    var rs := Records(Resource, Items(t, iid));
    hide Decode, Records, ReadableItems, WriteAll, RecordBytes, ReadResource;
    EncodedDecodes(rs);
    CopyRecords(t, iid, Decode(Reencode(rs)).value, target, to, widen, rid);
  }

  lemma CopyRecords(t: Table, iid: Uint16, out: seq<Record>, target: Table, to: Uint16, widen: Uint32 -> Uint64,
                    rid: Uint16)
    requires t.Valid() && target.Valid() && t.kind == target.kind
    requires iid in t.instances && to in target.instances
    requires |out| == |Items(t, iid)|
    requires forall i :: 0 <= i < |out| ==>
      && out[i].typ == Resource && out[i].id == Items(t, iid)[i].0
      && out[i].value == SerializeValue(Items(t, iid)[i].1)
    ensures ReadResource(WriteAll(target, to, out, widen), to, rid) == ReadResource(t, iid, rid)
  {
    WriteAllEffect(target, to, out, widen, rid);
    ItemsLast(t, iid, ListResources(t.kind), out, widen, rid);
    ListedReadable(t, iid, target, to, rid);
  }

  lemma ListedReadable(t: Table, iid: Uint16, target: Table, to: Uint16, rid: Uint16)
    requires t.Valid() && target.Valid() && t.kind == target.kind
    requires iid in t.instances && to in target.instances
    ensures ReadResource(t, iid, rid).Ok? ==> rid in ListResources(t.kind)
    ensures ReadResource(t, iid, rid).Err? ==>
      ReadResource(target, to, rid) == ReadResource(t, iid, rid) == Err(NotFound)
  {
    ReadableKind(t.instances[iid], rid);
    ReadableKind(target.instances[to], rid);
  }

  lemma {:induction false} ItemsLast(t: Table, iid: Uint16, rids: seq<Uint16>, out: seq<Record>,
                                     widen: Uint32 -> Uint64, rid: Uint16)
    requires t.Valid() && iid in t.instances
    requires var items := ReadableItems(t, iid, rids);
      && |out| == |items|
      && forall i :: 0 <= i < |items| ==>
           out[i].typ == Resource && out[i].id == items[i].0 && out[i].value == SerializeValue(items[i].1)
    ensures LastAccepted(t.kind, out, rid, widen) ==
      if rid in rids && ReadResource(t, iid, rid).Ok? then Some(ReadResource(t, iid, rid).value) else None
  {
    if rids != [] {
      var r := ReadResource(t, iid, rids[0]);
      if r.Ok? {
        assert out[0].id == rids[0];
        ItemsLast(t, iid, rids[1..], out[1..], widen, rid);
        LastAcceptedCons(t.kind, out, rid, widen);
        AcceptedOwn(t, iid, rids[0], widen);
      } else {
        ItemsLast(t, iid, rids[1..], out, widen, rid);
      }
    }
  }

  lemma {:induction false} LastAcceptedCons(k: Kind, records: seq<Record>, rid: Uint16, widen: Uint32 -> Uint64)
    requires records != []
    ensures LastAccepted(k, records, rid, widen) ==
      match LastAccepted(k, records[1..], rid, widen)
      case Some(v) => Some(v)
      case None => if records[0].typ == Resource && records[0].id == rid
                   then Accepted(k, rid, records[0].value, widen) else None
    decreases |records|
  {
    if |records| == 1 {
      assert records[..0] == [];
    } else {
      LastAcceptedCons(k, records[..|records| - 1], rid, widen);
      assert records[..|records| - 1][1..] == records[1..][..|records| - 2];
    }
  }

  lemma AcceptedOwn(t: Table, iid: Uint16, rid: Uint16, widen: Uint32 -> Uint64)
    requires t.Valid() && iid in t.instances && ReadResource(t, iid, rid).Ok?
    ensures var v := ReadResource(t, iid, rid).value;
            Accepted(t.kind, rid, SerializeValue(v), widen) == Some(v)
  {
    var v := ReadResource(t, iid, rid).value;
    ReadThenWrite(t.instances[iid], rid);
    ReadableKind(t.instances[iid], rid);
    ValueRoundTrip(v, widen);
  }

  /** Reading a whole object yields one record per instance, in container order, each with the
      readable resources of that instance as children. */
  lemma ObjectReadDecodes(t: Table, order: seq<Uint16>)
    requires forall i :: 0 <= i < |order| ==> |Body(Resource, Items(t, order[i]))| < TWO_TO_24
    ensures Decode(ObjectBytes(t, order)).Ok?
    ensures var rs := Decode(ObjectBytes(t, order)).value;
      |rs| == |order| && forall i :: 0 <= i < |order| ==> rs[i] == DecodedInstance(t, order[i])
  {
    var rs := InstanceRecords(t, order);
    ObjectBytesReencode(t, order);
    EncodedDecodes(rs);
    forall i | 0 <= i < |order|
      ensures Decode(ObjectBytes(t, order)).value[i] == DecodedInstance(t, order[i])
    {
      InstanceReadDecodes(t, order[i]);
      SingleTree(rs[i]);
      TreeAt(ChosenFrames(rs), 0, i);
    }
  }

  function InstanceRecords(t: Table, order: seq<Uint16>): (rs: seq<Record>)
    ensures |rs| == |order|
    ensures forall i :: 0 <= i < |order| ==>
      rs[i] == Record(ObjectInstance, order[i], Body(Resource, Items(t, order[i])), [])
  {
    if order == [] then []
    else [Record(ObjectInstance, order[0], Body(Resource, Items(t, order[0])), [])] + InstanceRecords(t, order[1..])
  }

  lemma {:induction false} ObjectBytesReencode(t: Table, order: seq<Uint16>)
    ensures Reencode(InstanceRecords(t, order)) == ObjectBytes(t, order)
  {
    if order != [] {
      assert InstanceRecords(t, order)[1..] == InstanceRecords(t, order[1..]);
      ObjectBytesReencode(t, order[1..]);
    }
  }

  /** A record decodes the same alone as in company. */
  lemma SingleTree(r: Record)
    requires |r.value| < TWO_TO_24
    ensures var f := Chosen(r.typ, r.id, r.value);
            Decode(RecordBytes(r.typ, r.id, r.value)) == Ok([Record(r.typ, r.id, r.value, Children(f, 0))])
  {
    assert Reencode([r]) == RecordBytes(r.typ, r.id, r.value);
    EncodedDecodes([r]);
    var f := Chosen(r.typ, r.id, r.value);
    assert ChosenFrames([r]) == [f];
    assert [f][1..] == [] && Tree([f][1..], 0) == [];
    assert Decode(RecordBytes(r.typ, r.id, r.value)).value == [Record(r.typ, r.id, r.value, Children(f, 0))];
  }
}
