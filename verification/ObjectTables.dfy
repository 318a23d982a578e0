/** The Security (0) and Server (1) objects: instances, their resources and types, and the
    narrowing stores behind a resource write. */
module ObjectTables {
  import opened Wrappers
  import opened MachineInts
  import opened TlvEncoder

  // --- Instances -----------------------------------------------------------

  datatype ServerInstance = ServerInstance(
    shortServerId: Uint16, lifetime: Uint32, defaultMinPeriod: Uint32, defaultMaxPeriod: Uint32,
    disableTimeoutPresent: bool, disableTimeout: Uint32, notificationStoring: bool, binding: seq<Byte>)

  datatype SecurityInstance = SecurityInstance(
    serverUri: seq<Byte>, bootstrapServer: bool, securityMode: Byte,
    publicKeyIdentity: seq<Byte>, serverPublicKey: seq<Byte>, secretKey: seq<Byte>,
    smsSecurityMode: Byte, smsKeyParameters: seq<Byte>, smsSecretKey: seq<Byte>, smsServerNumber: seq<Byte>,
    shortServerId: Uint16, clientHoldOffTime: Uint32, bootstrapTimeout: Uint32)

  const BLANK_SERVER: ServerInstance :=
    ServerInstance(0, 86400, 0, 0, false, 86400, false, [0x55])
  const NO_SEC: Byte := 3
  const BLANK_SECURITY: SecurityInstance :=
    SecurityInstance([], false, NO_SEC, [], [], [], 255, [], [], [], 0, 0, 0)

  function Narrow8(i: int): Byte { i % TWO_TO_8 }
  function Narrow16(i: int): Uint16 { i % TWO_TO_16 }
  function Narrow32(i: int): Uint32 { i % TWO_TO_32 }

  datatype Instance = Server(server: ServerInstance) | Security(security: SecurityInstance)

  datatype Kind = ServerKind | SecurityKind

  function KindOf(inst: Instance): Kind {
    if inst.Server? then ServerKind else SecurityKind
  }

  function Blank(k: Kind): (inst: Instance)
    ensures KindOf(inst) == k
  {
    match k case ServerKind => Server(BLANK_SERVER) case SecurityKind => Security(BLANK_SECURITY)
  }

  function ResourceTypeOf(k: Kind, rid: Uint16): Option<ResourceType> {
    match k
    case ServerKind =>
      if rid in {0, 1, 2, 3, 5} then Some(TypeInteger)
      else if rid == 6 then Some(TypeBoolean)
      else if rid == 7 then Some(TypeString)
      else None
    case SecurityKind =>
      if rid in {0, 9} then Some(TypeString)
      else if rid == 1 then Some(TypeBoolean)
      else if rid in {2, 6, 10, 11, 12} then Some(TypeInteger)
      else if rid in {3, 4, 5, 7, 8} then Some(TypeOpaque)
      else None
  }

  function ListResources(k: Kind): seq<Uint16> {
    match k
    case ServerKind => [0, 1, 2, 3, 4, 5, 6, 7, 8]
    case SecurityKind => [0, 1, 2, 3, 4, 5, 10, 11, 12]
  }

  function ReadServer(s: ServerInstance, rid: Uint16): Option<ResourceValue> {
    match rid
    case 0 => Some(Integer(s.shortServerId))
    case 1 => Some(Integer(s.lifetime))
    case 2 => Some(Integer(s.defaultMinPeriod))
    case 3 => Some(Integer(s.defaultMaxPeriod))
    case 5 => Some(Integer(s.disableTimeout))
    case 6 => Some(Boolean(s.notificationStoring))
    case 7 => Some(Text(s.binding))
    case _ => None
  }

  function ReadSecurity(s: SecurityInstance, rid: Uint16): Option<ResourceValue> {
    match rid
    case 0 => Some(Text(s.serverUri))
    case 1 => Some(Boolean(s.bootstrapServer))
    case 2 => Some(Integer(s.securityMode))
    case 3 => Some(Opaque(s.publicKeyIdentity))
    case 4 => Some(Opaque(s.serverPublicKey))
    case 5 => Some(Opaque(s.secretKey))
    case 10 => Some(Integer(s.shortServerId))
    case 11 => Some(Integer(s.clientHoldOffTime))
    case 12 => Some(Integer(s.bootstrapTimeout))
    case _ => None
  }

  function ReadInstance(inst: Instance, rid: Uint16): Option<ResourceValue> {
    match inst case Server(s) => ReadServer(s, rid) case Security(s) => ReadSecurity(s, rid)
  }

  function WriteServer(s: ServerInstance, rid: Uint16, v: ResourceValue): Result<ServerInstance> {
    match rid
    case 0 => if v.Integer? then Ok(s.(shortServerId := Narrow16(v.i))) else Err(BadRequest)
    case 1 => if v.Integer? then Ok(s.(lifetime := Narrow32(v.i))) else Err(BadRequest)
    case 2 => if v.Integer? then Ok(s.(defaultMinPeriod := Narrow32(v.i))) else Err(BadRequest)
    case 3 => if v.Integer? then Ok(s.(defaultMaxPeriod := Narrow32(v.i))) else Err(BadRequest)
    case 5 => if v.Integer? then Ok(s.(disableTimeout := Narrow32(v.i))) else Err(BadRequest)
    case 6 => if v.Boolean? then Ok(s.(notificationStoring := v.b)) else Err(BadRequest)
    case 7 => if v.Text? then Ok(s.(binding := v.chars)) else Err(BadRequest)
    case _ => Err(NotFound)
  }

  function WriteSecurity(s: SecurityInstance, rid: Uint16, v: ResourceValue): Result<SecurityInstance> {
    match rid
    case 0 => if v.Text? then Ok(s.(serverUri := v.chars)) else Err(BadRequest)
    case 1 => if v.Boolean? then Ok(s.(bootstrapServer := v.b)) else Err(BadRequest)
    case 2 => if v.Integer? then Ok(s.(securityMode := Narrow8(v.i))) else Err(BadRequest)
    case 3 => if v.Opaque? then Ok(s.(publicKeyIdentity := v.bytes)) else Err(BadRequest)
    case 4 => if v.Opaque? then Ok(s.(serverPublicKey := v.bytes)) else Err(BadRequest)
    case 5 => if v.Opaque? then Ok(s.(secretKey := v.bytes)) else Err(BadRequest)
    case 10 => if v.Integer? then Ok(s.(shortServerId := Narrow16(v.i))) else Err(BadRequest)
    case 11 => if v.Integer? then Ok(s.(clientHoldOffTime := Narrow32(v.i))) else Err(BadRequest)
    case 12 => if v.Integer? then Ok(s.(bootstrapTimeout := Narrow32(v.i))) else Err(BadRequest)
    case _ => Err(NotFound)
  }

  function WriteInstance(inst: Instance, rid: Uint16, v: ResourceValue): Result<Instance> {
    match inst
    case Server(s) =>
      (match WriteServer(s, rid, v) case Ok(t) => Ok(Server(t)) case Err(e) => Err(e))
    case Security(s) =>
      (match WriteSecurity(s, rid, v) case Ok(t) => Ok(Security(t)) case Err(e) => Err(e))
  }

  // --- Laws of one instance ------------------------------------------------

  predicate Readable(k: Kind, rid: Uint16) {
    ReadInstance(Blank(k), rid).Some?
  }

  /** A field of 8, 16 or 32 bits keeps an integer modulo its width. */
  function FieldModulus(k: Kind, rid: Uint16): (m: int)
    ensures m > 0
  {
    if k.SecurityKind? && rid == 2 then TWO_TO_8
    else if (k.ServerKind? && rid == 0) || (k.SecurityKind? && rid == 10) then TWO_TO_16
    else TWO_TO_32
  }

  function Stored(k: Kind, rid: Uint16, v: ResourceValue): ResourceValue {
    if v.Integer? then Integer(v.i % FieldModulus(k, rid)) else v
  }

  /** A write succeeds exactly for a readable resource given a value of its declared type, and
      is refused with "not found" exactly for a resource that cannot be read. */
  lemma WriteAccepts(inst: Instance, rid: Uint16, v: ResourceValue)
    ensures WriteInstance(inst, rid, v).Ok? <==>
            Readable(KindOf(inst), rid) && ResourceTypeOf(KindOf(inst), rid) == Some(TypeOfValue(v))
    ensures WriteInstance(inst, rid, v) == Err(NotFound) <==> !Readable(KindOf(inst), rid)
  {
  }

  /** After a write the resource reads as the value reduced to its field, every other resource
      reads as before. */
  lemma WriteThenRead(inst: Instance, rid: Uint16, v: ResourceValue, other: Uint16)
    requires WriteInstance(inst, rid, v).Ok?
    ensures var after := WriteInstance(inst, rid, v).value;
      && KindOf(after) == KindOf(inst)
      && ReadInstance(after, rid) == Some(Stored(KindOf(inst), rid, v))
      && (other != rid ==> ReadInstance(after, other) == ReadInstance(inst, other))
  {
  }

  /** What a resource reads as has its declared type and survives encoding, and writing it back
      is the identity. */
  lemma ReadThenWrite(inst: Instance, rid: Uint16)
    requires ReadInstance(inst, rid).Some?
    ensures var v := ReadInstance(inst, rid).value;
      && ResourceTypeOf(KindOf(inst), rid) == Some(TypeOfValue(v))
      && !v.Time? && !v.Link?
      && WriteInstance(inst, rid, v) == Ok(inst)
      && Stored(KindOf(inst), rid, v) == v
  {
    match inst {
      case Server(s) => WriteServerBack(s, rid);
      case Security(s) => WriteSecurityBack(s, rid);
    }
  }

  lemma WriteServerBack(s: ServerInstance, rid: Uint16)
    requires ReadServer(s, rid).Some?
    ensures WriteServer(s, rid, ReadServer(s, rid).value) == Ok(s)
  {
  }

  lemma WriteSecurityBack(s: SecurityInstance, rid: Uint16)
    requires ReadSecurity(s, rid).Some?
    ensures WriteSecurity(s, rid, ReadSecurity(s, rid).value) == Ok(s)
  {
  }

  lemma ReadableKind(inst: Instance, rid: Uint16)
    ensures ReadInstance(inst, rid).Some? <==> Readable(KindOf(inst), rid)
  {
  }

  // --- The table of an object ----------------------------------------------

  /** An object's instances and the identifier it proposes next. */
  datatype Table = Table(kind: Kind, instances: map<Uint16, Instance>, nextId: Uint16)
  {
    ghost predicate Valid() {
      forall iid :: iid in instances ==> KindOf(instances[iid]) == kind
    }
  }

  function ReadResource(t: Table, iid: Uint16, rid: Uint16): Result<ResourceValue> {
    if iid !in t.instances then Err(NotFound)
    else match ReadInstance(t.instances[iid], rid) case None => Err(NotFound) case Some(v) => Ok(v)
  }

  /** The outcome of a write and the table after it: a failing write changes nothing. */
  function WriteResource(t: Table, iid: Uint16, rid: Uint16, v: ResourceValue): (Result<()>, Table) {
    if iid !in t.instances then (Err(NotFound), t)
    else match WriteInstance(t.instances[iid], rid, v)
      case Ok(inst) => (Ok(()), t.(instances := t.instances[iid := inst]))
      case Err(e) => (Err(e), t)
  }

  function CreateInstance(t: Table, suggested: Option<Uint16>): (Result<Uint16>, Table) {
    var newId := if suggested.Some? then suggested.value else t.nextId;
    if newId in t.instances then (Err(BadRequest), t)
    else
      (Ok(newId), t.(instances := t.instances[newId := Blank(t.kind)],
                     nextId := if newId >= t.nextId then Narrow16(newId + 1) else t.nextId))
  }

  function DeleteInstance(t: Table, iid: Uint16): (Result<()>, Table) {
    if iid !in t.instances then (Err(NotFound), t)
    else (Ok(()), t.(instances := t.instances - {iid}))
  }

  /** A delete succeeds exactly for an instance that exists; that one goes, every other stays, and the
      identifier proposed next is not touched. */
  lemma DeleteAnswer(t: Table, iid: Uint16)
    ensures var (r, d) := DeleteInstance(t, iid);
      && (r.Ok? <==> iid in t.instances)
      && (r.Err? ==> r == Err(NotFound) && d == t)
      && iid !in d.instances && d.kind == t.kind && d.nextId == t.nextId
      && forall j :: j != iid ==>
           (j in d.instances <==> j in t.instances) && (j in t.instances ==> d.instances[j] == t.instances[j])
  {
  }

  /** Creating an instance and deleting it leaves the instances as they were. */
  lemma CreateThenDelete(t: Table, suggested: Option<Uint16>)
    requires CreateInstance(t, suggested).0.Ok?
    ensures var (r, d) := CreateInstance(t, suggested);
      && r.value == (if suggested.Some? then suggested.value else t.nextId)
      && DeleteInstance(d, r.value).0.Ok? && DeleteInstance(d, r.value).1.instances == t.instances
  {
  }

  // --- The objects themselves ----------------------------------------------

  /** A Server or Security object: the two classes of the source differ only in the instance
      type, which `kind` selects. */
  class ObjectStore {
    const kind: Kind
    var instances: map<Uint16, Instance>
    var nextInstanceId: Uint16

    function State(): Table
      reads this
    {
      Table(kind, instances, nextInstanceId)
    }

    ghost predicate Valid()
      reads this
    {
      State().Valid()
    }

    constructor (k: Kind)
      ensures Valid() && State() == Table(k, map[], 0)
    {
      kind := k;
      instances := map[];
      nextInstanceId := 0;
    }

    method Create(suggested: Option<Uint16>) returns (r: Result<Uint16>)
      requires Valid()
      modifies this
      ensures Valid() && (r, State()) == CreateInstance(old(State()), suggested)
    {
      var newId := if suggested.Some? then suggested.value else nextInstanceId;
      if newId in instances {
        return Err(BadRequest);
      }
      instances := instances[newId := Blank(kind)];
      if newId >= nextInstanceId {
        nextInstanceId := Narrow16(newId + 1);
      }
      r := Ok(newId);
    }

    method Delete(iid: Uint16) returns (r: Result<()>)
      requires Valid()
      modifies this
      ensures Valid() && (r, State()) == DeleteInstance(old(State()), iid)
    {
      if iid !in instances {
        return Err(NotFound);
      }
      instances := instances - {iid};
      r := Ok(());
    }

    method Write(iid: Uint16, rid: Uint16, v: ResourceValue) returns (r: Result<()>)
      requires Valid()
      modifies this`instances
      ensures Valid() && (r, State()) == WriteResource(old(State()), iid, rid, v)
    {
      if iid !in instances {
        return Err(NotFound);
      }
      var inst := instances[iid];
      var written := WriteInstance(inst, rid, v);
      if written.Err? {
        return Err(written.error);
      }
      WriteThenRead(inst, rid, v, rid);
      instances := instances[iid := written.value];
      r := Ok(());
    }

    /** Create an instance and overwrite it with a configuration. */
    method AddServer(config: Instance) returns (r: Result<Uint16>)
      requires Valid() && KindOf(config) == kind
      modifies this
      ensures Valid()
      ensures r == CreateInstance(old(State()), None).0
      ensures State() == if r.Err? then old(State())
        else CreateInstance(old(State()), None).1.(instances := old(instances)[r.value := config])
    {
      r := Create(None);
      if r.Err? {
        return;
      }
      instances := instances[r.value := config];
    }

    /** Some instance with the given short server id, in the order the container yields them. */
    method FindByShortServerId(ssid: Uint16, order: seq<Uint16>) returns (r: Option<Instance>)
      requires Valid() && forall iid :: iid in instances <==> iid in order
      ensures r.None? <==> forall iid :: iid in instances ==> ShortServerId(instances[iid]) != ssid
      ensures r.Some? ==> ShortServerId(r.value) == ssid && exists iid :: iid in instances && instances[iid] == r.value
    {
      for k := 0 to |order|
        invariant forall j :: 0 <= j < k ==> ShortServerId(instances[order[j]]) != ssid
      {
        if ShortServerId(instances[order[k]]) == ssid {
          return Some(instances[order[k]]);
        }
      }
      r := None;
    }
  }

  function ShortServerId(inst: Instance): Uint16 {
    match inst case Server(s) => s.shortServerId case Security(s) => s.shortServerId
  }

  // --- Identifier allocation over whole runs -------------------------------

  datatype TableOp =
    | OpCreate(suggested: Option<Uint16>)
    | OpDelete(iid: Uint16)
    | OpWrite(at: Uint16, rid: Uint16, v: ResourceValue)

  function ApplyOp(t: Table, op: TableOp): Table {
    match op
    case OpCreate(s) => CreateInstance(t, s).1
    case OpDelete(iid) => DeleteInstance(t, iid).1
    case OpWrite(iid, rid, v) => WriteResource(t, iid, rid, v).1
  }

  function RunOps(t: Table, ops: seq<TableOp>): Table
    decreases |ops|
  {
    if ops == [] then t else ApplyOp(RunOps(t, ops[..|ops| - 1]), ops[|ops| - 1])
  }

  /** Every identifier a run has handed out. */
  function Created(t: Table, ops: seq<TableOp>): set<Uint16>
    decreases |ops|
  {
    if ops == [] then {}
    else
      var before := ops[..|ops| - 1];
      Created(t, before) + HandedOut(RunOps(t, before), ops[|ops| - 1])
  }

  /** The identifier an operation hands out, if any. */
  function HandedOut(t: Table, op: TableOp): set<Uint16> {
    if op.OpCreate? && CreateInstance(t, op.suggested).0.Ok? then {CreateInstance(t, op.suggested).0.value} else {}
  }

  /** `used` holds every live identifier, and the counter is above all of it until it wraps. */
  ghost predicate Counting(t: Table, used: set<Uint16>) {
    && t.Valid()
    && (forall iid :: iid in t.instances ==> iid in used)
    && (65535 !in used ==> forall iid :: iid in used ==> iid < t.nextId)
  }

  lemma CountingStep(t: Table, used: set<Uint16>, op: TableOp)
    requires Counting(t, used)
    ensures Counting(ApplyOp(t, op), used + HandedOut(t, op))
    ensures ApplyOp(t, op).kind == t.kind
  {
    match op {
      case OpCreate(_) =>
      case OpDelete(_) =>
      case OpWrite(iid, rid, v) =>
        if iid in t.instances && WriteInstance(t.instances[iid], rid, v).Ok? {
          WriteThenRead(t.instances[iid], rid, v, rid);
        }
    }
  }

  /** In every run from an empty table, creating without a suggestion fails exactly when the
      identifier the counter proposes is occupied, and gives one never handed out before, not even
      to a deleted instance, exactly when the proposed one was not. The proposal can be one used
      before only after 65535 has been handed out and the counter has wrapped. */
  lemma {:induction false} FreshIdentifiers(k: Kind, ops: seq<TableOp>)
    ensures var start := Table(k, map[], 0);
      var t, used := RunOps(start, ops), Created(start, ops);
      && Counting(t, used) && t.kind == k
      && (CreateInstance(t, None) == (Err(BadRequest), t) <==> Stuck(t))
      && (CreateInstance(t, None).0.Ok? && CreateInstance(t, None).0.value !in used <==> t.nextId !in used)
      && (t.nextId in used ==> 65535 in used)
    decreases |ops|
  {
    if ops != [] {
      var start := Table(k, map[], 0);
      var before := ops[..|ops| - 1];
      FreshIdentifiers(k, before);
      CountingStep(RunOps(start, before), Created(start, before), ops[|ops| - 1]);
    }
  }

  /** The counter proposes an occupied identifier. */
  predicate Stuck(t: Table) {
    t.nextId in t.instances
  }

  /** An operation that frees the proposed identifier, or moves the counter to a free one. */
  predicate Frees(t: Table, op: TableOp) {
    match op
    case OpDelete(iid) => iid == t.nextId
    case OpCreate(Some(iid)) => iid > t.nextId && iid !in t.instances && Narrow16(iid + 1) !in t.instances
    case _ => false
  }

  /** A stuck table stays stuck at every operation except exactly those. */
  lemma StuckStep(t: Table, op: TableOp)
    requires Stuck(t)
    ensures Stuck(ApplyOp(t, op)) <==> !Frees(t, op)
  {
    if op.OpCreate? && op.suggested.Some? {
      assert Narrow16(op.suggested.value + 1) != op.suggested.value;
    }
  }

  /** Neither a delete of identifier n nor a creation above it. */
  predicate Spares(n: Uint16, op: TableOp) {
    match op
    case OpDelete(iid) => iid != n
    case OpCreate(Some(iid)) => iid <= n
    case _ => true
  }

  /** So creation without a suggestion fails for as long as the proposed identifier is not deleted
      and none above it is created. */
  lemma {:induction false} StuckForever(t: Table, ops: seq<TableOp>)
    requires Stuck(t) && forall i :: 0 <= i < |ops| ==> Spares(t.nextId, ops[i])
    ensures var d := RunOps(t, ops);
      Stuck(d) && d.nextId == t.nextId && CreateInstance(d, None) == (Err(BadRequest), d)
    decreases |ops|
  {
    if ops != [] {
      var before := ops[..|ops| - 1];
      StuckForever(t, before);
      StuckStep(RunOps(t, before), ops[|ops| - 1]);
    }
  }

  /** Such tables are reached: the counter wraps onto an instance that is still there. */
  lemma WrappedCounterSticks(k: Kind)
    ensures Stuck(RunOps(Table(k, map[], 0), [OpCreate(Some(0)), OpCreate(Some(65535))]))
  {
    var start := Table(k, map[], 0);
    var ops := [OpCreate(Some(0)), OpCreate(Some(65535))];
    assert ops[..1] == [OpCreate(Some(0))] && ops[..1][..0] == [];
    assert RunOps(start, ops[..1]) == ApplyOp(start, ops[0]);
  }
}
