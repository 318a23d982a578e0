/** What a server gets back from a read or a write, and what the write leaves behind: one law for
    each kind of path, over every set of objects and every payload. */
module RequestLaws {
  import opened Wrappers
  import opened MachineInts
  import opened Splitting
  import opened ObjectPaths
  import opened TlvFrame
  import opened TlvDecoder
  import opened TlvEncoder
  import opened ObjectTables
  import opened Dispatch

  // --- What an instance shows ----------------------------------------------

  /** The record carries what the resource reads as, for the type the object declares. */
  ghost predicate Carried(t: Table, iid: Uint16, r: Record, widen: Uint32 -> Uint64) {
    && r.typ == Resource && r.children == []
    && ReadResource(t, iid, r.id).Ok? && ResourceTypeOf(t.kind, r.id).Some?
    && DecodeValue(r.value, ResourceTypeOf(t.kind, r.id).value, widen) == ReadResource(t, iid, r.id)
  }

  /** One record for each resource that can be read, by ascending identifier, and no other. */
  ghost predicate Shows(t: Table, iid: Uint16, kids: seq<Record>, widen: Uint32 -> Uint64) {
    && (forall i :: 0 <= i < |kids| ==> Carried(t, iid, kids[i], widen))
    && (forall rid :: ReadResource(t, iid, rid).Ok? ==> exists i :: 0 <= i < |kids| && kids[i].id == rid)
    && (forall i, j :: 0 <= i < j < |kids| ==> kids[i].id < kids[j].id)
  }

  predicate IsRead(t: Table, iid: Uint16, rids: seq<Uint16>, item: Item) {
    item.0 in rids && ReadResource(t, iid, item.0) == Ok(item.1)
  }

  ghost predicate Names(items: seq<Item>, rid: Uint16) {
    exists i :: 0 <= i < |items| && items[i].0 == rid
  }

  ghost predicate EachRead(t: Table, iid: Uint16, rids: seq<Uint16>, items: seq<Item>) {
    forall i :: 0 <= i < |items| ==> IsRead(t, iid, rids, items[i])
  }

  ghost predicate EachNamed(t: Table, iid: Uint16, rids: seq<Uint16>, items: seq<Item>) {
    forall rid :: rid in rids && ReadResource(t, iid, rid).Ok? ==> Names(items, rid)
  }

  ghost predicate Ascending(items: seq<Item>) {
    forall i, j :: 0 <= i < j < |items| ==> items[i].0 < items[j].0
  }

  /** The items of ascending identifiers are those of the ones that can be read, in order. */
  lemma {:induction false} ItemsMeaning(t: Table, iid: Uint16, rids: seq<Uint16>)
    requires forall i, j :: 0 <= i < j < |rids| ==> rids[i] < rids[j]
    ensures var items := ReadableItems(t, iid, rids);
      EachRead(t, iid, rids, items) && EachNamed(t, iid, rids, items) && Ascending(items)
  {
    if rids != [] {
      hide ReadResource;
      var r, rest := ReadResource(t, iid, rids[0]), ReadableItems(t, iid, rids[1..]);
      ItemsMeaning(t, iid, rids[1..]);
      EachReadCons(t, iid, rids, rest);
      EachNamedCons(t, iid, rids, rest);
      if r.Ok? {
        assert EachRead(t, iid, rids[1..], rest);
        AscendingCons(t, iid, rids, (rids[0], r.value), rest);
      }
    }
  }

  lemma EachReadCons(t: Table, iid: Uint16, rids: seq<Uint16>, rest: seq<Item>)
    requires rids != [] && EachRead(t, iid, rids[1..], rest)
    ensures EachRead(t, iid, rids, rest)
    ensures ReadResource(t, iid, rids[0]).Ok? ==>
      EachRead(t, iid, rids, [(rids[0], ReadResource(t, iid, rids[0]).value)] + rest)
  {
    hide ReadResource;
    forall i | 0 <= i < |rest|
      ensures IsRead(t, iid, rids, rest[i])
    {
      assert IsRead(t, iid, rids[1..], rest[i]);
    }
  }

  lemma EachNamedCons(t: Table, iid: Uint16, rids: seq<Uint16>, rest: seq<Item>)
    requires rids != [] && EachNamed(t, iid, rids[1..], rest)
    ensures ReadResource(t, iid, rids[0]).Err? ==> EachNamed(t, iid, rids, rest)
    ensures ReadResource(t, iid, rids[0]).Ok? ==>
      EachNamed(t, iid, rids, [(rids[0], ReadResource(t, iid, rids[0]).value)] + rest)
  {
    hide ReadResource;
    var r := ReadResource(t, iid, rids[0]);
    if r.Ok? {
      var items: seq<Item> := [(rids[0], r.value)] + rest;
      assert items[0].0 == rids[0];
      forall rid | rid in rids && rid != rids[0] && ReadResource(t, iid, rid).Ok?
        ensures Names(items, rid)
      {
        assert Names(rest, rid);
        var i :| 0 <= i < |rest| && rest[i].0 == rid;
        assert items[i + 1].0 == rid;
      }
    }
  }

  lemma AscendingCons(t: Table, iid: Uint16, rids: seq<Uint16>, item: Item, rest: seq<Item>)
    requires rids != [] && forall i, j :: 0 <= i < j < |rids| ==> rids[i] < rids[j]
    requires item.0 == rids[0] && EachRead(t, iid, rids[1..], rest) && Ascending(rest)
    ensures Ascending([item] + rest)
  {
    hide ReadResource;
    forall j | 0 <= j < |rest|
      ensures item.0 < rest[j].0
    {
      assert IsRead(t, iid, rids[1..], rest[j]);
      var k :| 0 <= k < |rids[1..]| && rids[1..][k] == rest[j].0;
      assert rids[k + 1] == rest[j].0;
    }
  }

  lemma ItemsShow(t: Table, iid: Uint16, widen: Uint32 -> Uint64)
    requires t.Valid() && iid in t.instances
    ensures Shows(t, iid, Records(Resource, Items(t, iid)), widen)
  {
    hide ReadableItems, Records, Carried;
    ItemsMeaning(t, iid, ListResources(t.kind));
    ListingShows(t, iid, Items(t, iid), widen);
  }

  lemma ListingShows(t: Table, iid: Uint16, items: seq<Item>, widen: Uint32 -> Uint64)
    requires t.Valid() && iid in t.instances && Ascending(items)
    requires EachRead(t, iid, ListResources(t.kind), items) && EachNamed(t, iid, ListResources(t.kind), items)
    ensures Shows(t, iid, Records(Resource, items), widen)
  {
    hide DecodeValue, SerializeValue, ReadResource, Carried;
    var kids := Records(Resource, items);
    forall i | 0 <= i < |kids|
      ensures Carried(t, iid, kids[i], widen)
    {
      assert IsRead(t, iid, ListResources(t.kind), items[i]);
      OwnRecord(t, iid, items[i].0, items[i].1, widen);
    }
    forall rid | ReadResource(t, iid, rid).Ok?
      ensures exists i :: 0 <= i < |kids| && kids[i].id == rid
    {
      ListedReadable(t, iid, t, iid, rid);
      assert Names(items, rid);
      var i :| 0 <= i < |items| && items[i].0 == rid;
      assert kids[i].id == rid;
    }
  }

  lemma OwnRecord(t: Table, iid: Uint16, rid: Uint16, v: ResourceValue, widen: Uint32 -> Uint64)
    requires t.Valid() && iid in t.instances && ReadResource(t, iid, rid) == Ok(v)
    ensures Carried(t, iid, Record(Resource, rid, SerializeValue(v), []), widen)
  {
    ReadThenWrite(t.instances[iid], rid);
    ValueRoundTrip(v, widen);
  }

  // --- Reads ---------------------------------------------------------------

  /** A read of a resource is answered with Content exactly when it can be read, and then with one
      Resource record that carries the value, exactly when the value is shorter than 2^24 bytes. */
  lemma ResourceReadAnswer(objects: Objects, oid: Uint16, iid: Uint16, rid: Uint16, order: seq<Uint16>,
                           widen: Uint32 -> Uint64)
    requires ValidObjects(objects)
    ensures var r := HandleRead(objects, ResourcePath(oid, iid, rid), order);
      && (r.code == Some(Content205) <==> oid in objects && ReadResource(objects[oid], iid, rid).Ok?)
      && (r.code != Some(Content205) ==> r == Plain(NotFound404))
      && (r.code == Some(Content205) ==>
            ((exists value, kids :: Decode(r.payload) == Ok([Record(Resource, rid, value, kids)])
                && value == SerializeValue(ReadResource(objects[oid], iid, rid).value)
                && Carried(objects[oid], iid, Record(Resource, rid, value, []), widen))
             <==> |SerializeValue(ReadResource(objects[oid], iid, rid).value)| < TWO_TO_24))
  {
    hide Decode, SerializeValue, DecodeValue, RecordBytes;
    var r := HandleRead(objects, ResourcePath(oid, iid, rid), order);
    if r.code == Some(Content205) {
      var v := ReadResource(objects[oid], iid, rid).value;
      RecordRoundTrip(Resource, rid, SerializeValue(v));
      OwnRecord(objects[oid], iid, rid, v, widen);
    }
  }

  /** A payload made of one ObjectInstance record that shows the instance. */
  ghost predicate Presents(payload: seq<Byte>, t: Table, iid: Uint16, widen: Uint32 -> Uint64) {
    exists kids :: Decode(payload) == Ok([Record(ObjectInstance, iid, Body(Resource, Items(t, iid)), kids)])
                   && Shows(t, iid, kids, widen)
  }

  /** A read of an instance is answered with Content exactly when the object and the instance exist,
      and then with a record that shows it, exactly when its body is shorter than 2^24 bytes. */
  lemma InstanceReadAnswer(objects: Objects, oid: Uint16, iid: Uint16, order: seq<Uint16>, widen: Uint32 -> Uint64)
    requires ValidObjects(objects)
    ensures var r := HandleRead(objects, InstancePath(oid, iid), order);
      && (r.code == Some(Content205) <==> oid in objects && iid in objects[oid].instances)
      && (r.code != Some(Content205) ==> r == Plain(NotFound404))
      && (r.code == Some(Content205) ==>
            (Presents(r.payload, objects[oid], iid, widen) <==> |Body(Resource, Items(objects[oid], iid))| < TWO_TO_24))
  {
    hide Decode, RecordBytes, Items, Shows, Body;
    var r := HandleRead(objects, InstancePath(oid, iid), order);
    if r.code == Some(Content205) {
      var t := objects[oid];
      RecordRoundTrip(ObjectInstance, iid, Body(Resource, Items(t, iid)));
      ItemsShow(t, iid, widen);
      if |Body(Resource, Items(t, iid))| < TWO_TO_24 {
        InstanceReadDecodes(t, iid);
      }
    }
  }

  ghost predicate BodiesFit(t: Table, order: seq<Uint16>) {
    forall i :: 0 <= i < |order| ==> |Body(Resource, Items(t, order[i]))| < TWO_TO_24
  }

  /** A read of an object is answered with Content exactly when the object exists, and then with one
      such record for each instance, in container order, when their bodies are short enough. */
  lemma ObjectReadAnswer(objects: Objects, oid: Uint16, order: seq<Uint16>, widen: Uint32 -> Uint64)
    requires ValidObjects(objects)
    requires oid in objects ==> forall iid :: iid in objects[oid].instances <==> iid in order
    ensures var r := HandleRead(objects, ObjectPath(oid, None, None, None), order);
      && (r.code == Some(Content205) <==> oid in objects)
      && (r.code != Some(Content205) ==> r == Plain(NotFound404))
      && (oid in objects && BodiesFit(objects[oid], order) ==>
            && Decode(r.payload).Ok?
            && var rs := Decode(r.payload).value;
            && |rs| == |order|
            && forall i :: 0 <= i < |order| ==>
                 && rs[i].typ == ObjectInstance && rs[i].id == order[i]
                 && Shows(objects[oid], order[i], rs[i].children, widen))
  {
    hide Decode, Items, Shows, Body;
    if oid in objects && BodiesFit(objects[oid], order) {
      var t := objects[oid];
      ObjectReadDecodes(t, order);
      forall i | 0 <= i < |order|
        ensures Shows(t, order[i], DecodedInstance(t, order[i]).children, widen)
      {
        ItemsShow(t, order[i], widen);
      }
    }
  }

  // --- Writes --------------------------------------------------------------

  /** Every object but one is what it was. */
  ghost predicate OthersKept(objects: Objects, after: Objects, oid: Uint16) {
    after.Keys == objects.Keys && forall other :: other in objects && other != oid ==> after[other] == objects[other]
  }

  /** A write to a missing object, or with a payload that does not decode, changes nothing. */
  lemma RefusedWrite(objects: Objects, path: ObjectPath, payload: seq<Byte>, widen: Uint32 -> Uint64)
    requires path.Gapless()
    ensures var (r, after) := HandleWrite(objects, path, payload, widen);
      && (path.objectId !in objects ==> r == Plain(NotFound404) && after == objects)
      && (path.objectId in objects && Decode(payload).Err? ==> r == Plain(BadRequest400) && after == objects)
      && OthersKept(objects, after, path.objectId)
  {
    hide Decode;
    if path.objectId in objects {
      assert objects[path.objectId := objects[path.objectId]] == objects;
    }
  }

  /** A write to a resource stores the value of the first record, whatever its type and identifier;
      the records after it do not count. It answers Changed, and changes that resource only, exactly
      when there is a first record, its value decodes for the resource, and the instance has it. */
  lemma ResourceWriteAnswer(objects: Objects, oid: Uint16, iid: Uint16, rid: Uint16, payload: seq<Byte>,
                            widen: Uint32 -> Uint64, other: Uint16)
    requires ValidObjects(objects) && oid in objects && Decode(payload).Ok?
    ensures var (r, after) := HandleWrite(objects, ResourcePath(oid, iid, rid), payload, widen);
      var t, records := objects[oid], Decode(payload).value;
      && after.Keys == objects.Keys
      && (r == Plain(BadRequest400) <==>
            records == [] || DecodeValue(records[0].value, ExpectedType(t, rid), widen).Err?)
      && (r == Plain(NotFound404) <==>
            && records != [] && DecodeValue(records[0].value, ExpectedType(t, rid), widen).Ok?
            && (iid !in t.instances || !Readable(t.kind, rid)))
      && (r == Plain(Changed204) <==>
            records != [] && iid in t.instances && Accepted(t.kind, rid, records[0].value, widen).Some?)
      && r.code in {Some(BadRequest400), Some(NotFound404), Some(Changed204)}
      && (records != [] && ResourceTypeOf(t.kind, rid).None? ==> r == Plain(NotFound404))
      && (r != Plain(Changed204) ==> after == objects)
      && (r == Plain(Changed204) ==>
            && after[oid].instances.Keys == t.instances.Keys
            && (forall j :: j in t.instances && j != iid ==> after[oid].instances[j] == t.instances[j])
            && ReadResource(after[oid], iid, other) ==
               if other == rid then Ok(Accepted(t.kind, rid, records[0].value, widen).value)
               else ReadResource(t, iid, other))
  {
    hide Decode, DecodeValue, ReadInstance, ReadResource;
    var t, records := objects[oid], Decode(payload).value;
    assert objects[oid := t] == objects;
    if records != [] {
      var b := records[0].value;
      DecodeAccepts(b, TypeString, widen);
      Untyped(t.kind, rid);
      if iid in t.instances {
        WriteBytesEffect(t, iid, rid, b, widen, other);
        WriteBytesEffect(t, iid, rid, b, widen, rid);
        WriteCodes(t, iid, rid, b, widen);
      }
    }
  }

  lemma Untyped(k: Kind, rid: Uint16)
    ensures ResourceTypeOf(k, rid).None? ==> !Readable(k, rid)
  {
  }

  /** The resources with a declared type that cannot be read are these, so a write to one of them is
      a bad request when its value does not decode for the type, and not found otherwise. */
  lemma TypedUnreadable(k: Kind, rid: Uint16)
    ensures ResourceTypeOf(k, rid).Some? && !Readable(k, rid) <==> k == SecurityKind && rid in {6, 7, 8, 9}
    ensures k == SecurityKind && rid in {6, 7, 8, 9} ==>
      ResourceTypeOf(k, rid) == Some(if rid == 6 then TypeInteger else if rid == 9 then TypeString else TypeOpaque)
  {
  }

  /** Why a write of one value fails. */
  lemma WriteCodes(t: Table, iid: Uint16, rid: Uint16, b: seq<Byte>, widen: Uint32 -> Uint64)
    requires t.Valid() && iid in t.instances
    ensures var r, v := WriteBytes(t, iid, rid, b, widen).0, DecodeValue(b, ExpectedType(t, rid), widen);
      && (r == Err(BadRequest) <==> v.Err?)
      && (r == Err(NotFound) <==> v.Ok? && !Readable(t.kind, rid))
      && (r.Err? ==> r in {Err(BadRequest), Err(NotFound)})
  {
    var v := DecodeValue(b, ExpectedType(t, rid), widen);
    if v.Ok? {
      WriteAccepts(t.instances[iid], rid, v.value);
    }
  }

  /** A write to an instance answers Changed even when the instance is missing; in an instance that
      is there every resource ends with the last value its records offer that is accepted. */
  lemma InstanceWriteAnswer(objects: Objects, oid: Uint16, iid: Uint16, payload: seq<Byte>,
                            widen: Uint32 -> Uint64, rid: Uint16)
    requires ValidObjects(objects) && oid in objects && Decode(payload).Ok?
    ensures var (r, after) := HandleWrite(objects, InstancePath(oid, iid), payload, widen);
      var t, records := objects[oid], Decode(payload).value;
      && r == Plain(Changed204) && after.Keys == objects.Keys
      && (iid !in t.instances ==> after == objects)
      && (iid in t.instances ==>
            && after[oid].instances.Keys == t.instances.Keys
            && (forall j :: j in t.instances && j != iid ==> after[oid].instances[j] == t.instances[j])
            && ReadResource(after[oid], iid, rid) ==
               match LastAccepted(t.kind, records, rid, widen)
               case Some(v) => Ok(v)
               case None => ReadResource(t, iid, rid))
  {
    hide Decode, ReadResource, LastAccepted;
    var t, records := objects[oid], Decode(payload).value;
    assert objects[oid := t] == objects;
    if iid in t.instances {
      WriteAllEffect(t, iid, records, widen, rid);
    } else {
      WriteAllAbsent(t, iid, records, widen);
    }
  }

  /** What the resources of a new instance read as. */
  function InitialRead(k: Kind, rid: Uint16): Result<ResourceValue> {
    match k
    case ServerKind =>
      if rid in {0, 2, 3} then Ok(Integer(0))
      else if rid in {1, 5} then Ok(Integer(86400))
      else if rid == 6 then Ok(Boolean(false))
      else if rid == 7 then Ok(Text(['U' as int]))
      else Err(NotFound)
    case SecurityKind =>
      if rid == 0 then Ok(Text([]))
      else if rid == 1 then Ok(Boolean(false))
      else if rid == 2 then Ok(Integer(3))
      else if rid in {3, 4, 5} then Ok(Opaque([]))
      else if rid in {10, 11, 12} then Ok(Integer(0))
      else Err(NotFound)
  }

  /** A write to an object creates an instance, whatever records its payload holds: it answers Created
      exactly when the identifier the object proposes is free, and then that identifier, and no
      other, has a new instance with the initial values; otherwise it is a bad request and nothing
      changes. */
  lemma ObjectWriteCreates(objects: Objects, oid: Uint16, payload: seq<Byte>, widen: Uint32 -> Uint64, rid: Uint16)
    requires ValidObjects(objects) && oid in objects && Decode(payload).Ok?
    ensures var (r, after) := HandleWrite(objects, ObjectPath(oid, None, None, None), payload, widen);
      var t := objects[oid];
      && after.Keys == objects.Keys
      && (r == Plain(Created201) <==> t.nextId !in t.instances)
      && (r != Plain(Created201) ==> r == Plain(BadRequest400) && after == objects)
      && (r == Plain(Created201) ==>
            && after[oid].instances.Keys == t.instances.Keys + {t.nextId}
            && (forall j :: j in t.instances ==> after[oid].instances[j] == t.instances[j])
            && after[oid].nextId == (t.nextId + 1) % TWO_TO_16
            && ReadResource(after[oid], t.nextId, rid) == InitialRead(t.kind, rid))
  {
    hide Decode;
    assert objects[oid := objects[oid]] == objects;
  }

  /** Error codes and response codes correspond. */
  lemma ErrorCodes(e: ErrorCode)
    ensures ErrorToCoap(e) == NotFound404 <==> e == NotFound
    ensures ErrorToCoap(e) == MethodNotAllowed405 <==> e == MethodNotAllowed
    ensures ErrorToCoap(e) == BadRequest400 <==> e == BadRequest
    ensures ErrorToCoap(e) in {NotFound404, MethodNotAllowed405, BadRequest400, InternalError500}
  {
  }

  // --- Instances as configured ---------------------------------------------

  /** The resources of a Server instance are its fields, whatever put it into the table. */
  lemma ServerFields(t: Table, iid: Uint16, s: ServerInstance)
    requires iid in t.instances && t.instances[iid] == Server(s)
    ensures ReadResource(t, iid, 0) == Ok(Integer(ShortServerId(t.instances[iid])))
    ensures ReadResource(t, iid, 1) == Ok(Integer(s.lifetime))
    ensures ReadResource(t, iid, 2) == Ok(Integer(s.defaultMinPeriod))
    ensures ReadResource(t, iid, 3) == Ok(Integer(s.defaultMaxPeriod))
    ensures ReadResource(t, iid, 5) == Ok(Integer(s.disableTimeout))
    ensures ReadResource(t, iid, 6) == Ok(Boolean(s.notificationStoring))
    ensures ReadResource(t, iid, 7) == Ok(Text(s.binding))
  {
  }

  lemma SecurityFields(t: Table, iid: Uint16, s: SecurityInstance)
    requires iid in t.instances && t.instances[iid] == Security(s)
    ensures ReadResource(t, iid, 0) == Ok(Text(s.serverUri))
    ensures ReadResource(t, iid, 1) == Ok(Boolean(s.bootstrapServer))
    ensures ReadResource(t, iid, 2) == Ok(Integer(s.securityMode))
    ensures ReadResource(t, iid, 3) == Ok(Opaque(s.publicKeyIdentity))
    ensures ReadResource(t, iid, 4) == Ok(Opaque(s.serverPublicKey))
    ensures ReadResource(t, iid, 5) == Ok(Opaque(s.secretKey))
    ensures ReadResource(t, iid, 10) == Ok(Integer(ShortServerId(t.instances[iid])))
    ensures ReadResource(t, iid, 11) == Ok(Integer(s.clientHoldOffTime))
    ensures ReadResource(t, iid, 12) == Ok(Integer(s.bootstrapTimeout))
  {
  }
}
