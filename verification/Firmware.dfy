/** The Firmware Update object, called from one thread. The application's callbacks are inputs:
    each is either not set or gives an outcome, and the calls made to them are a log. */
module Firmware {
  import opened Wrappers
  import opened MachineInts
  import opened TlvEncoder

  datatype FirmwareState = Idle | Downloading | Downloaded | Updating

  datatype UpdateResult =
    | Initial | Success | NotEnoughFlashMemory | OutOfRam | ConnectionLostDuringDownload
    | IntegrityCheckFailure | UnsupportedPackageType | InvalidUri | UpdateFailed | UnsupportedProtocol

  /** A callback that is not set, or its outcome. */
  datatype Callback = Unset | Gives(outcome: Result<()>)
  {
    /** No objection: either nobody is asked or the answer is positive. */
    predicate Agrees() { Unset? || outcome.Ok? }
  }

  datatype Call = StartDownload(uri: seq<Byte>) | VerifyPackage(data: seq<Byte>) | ApplyUpdate

  datatype Core = Core(state: FirmwareState, result: UpdateResult, uri: seq<Byte>, data: seq<Byte>,
                       name: seq<Byte>, version: seq<Byte>, calls: seq<Call>)

  const Fresh: Core := Core(Idle, Initial, [], [], [], [], [])

  datatype Step =
    | DoWrite(iid: Uint16, rid: Uint16, value: ResourceValue, start: Callback, writeVerify: Callback)
    | DoExecute(executeIid: Uint16, executeRid: Uint16, apply: Callback)
    | DoPush(package: seq<Byte>, verify: Callback)
    | DoReport(success: bool)
    | DoComplete(result: UpdateResult)
    | DoNamePackage(name: seq<Byte>, version: seq<Byte>)

  // --- Operations as functions ---------------------------------------------

  function Push(c: Core, data: seq<Byte>, verify: Callback): (Result<()>, Core) {
    if c.state != Idle && c.state != Downloaded then (Err(MethodNotAllowed), c)
    else
      var d := c.(calls := if verify.Unset? then c.calls else c.calls + [VerifyPackage(data)]);
      if verify.Agrees() then (Ok(()), d.(data := data, result := Initial, state := Downloaded))
      else (verify.outcome, d.(data := [], result := IntegrityCheckFailure))
  }

  function FetchFrom(c: Core, uri: seq<Byte>, start: Callback): (Result<()>, Core) {
    var d := c.(uri := uri, result := Initial);
    match start
    case Unset => (Ok(()), d)
    case Gives(Ok(_)) => (Ok(()), d.(calls := c.calls + [StartDownload(uri)], state := Downloading))
    case Gives(e) => (e, d.(calls := c.calls + [StartDownload(uri)], result := InvalidUri))
  }

  function Write(c: Core, iid: Uint16, rid: Uint16, v: ResourceValue, start: Callback, verify: Callback)
    : (Result<()>, Core)
  {
    if iid != 0 then (Err(NotFound), c)
    else if rid == 0 then
      if c.state != Idle && c.state != Downloaded then (Err(MethodNotAllowed), c)
      else if v.Opaque? then Push(c, v.bytes, verify)
      else (Err(BadRequest), c)
    else if rid == 1 then
      if c.state != Idle then (Err(MethodNotAllowed), c)
      else if v.Text? then FetchFrom(c, v.chars, start)
      else (Err(BadRequest), c)
    else (Err(MethodNotAllowed), c)
  }

  function Execute(c: Core, iid: Uint16, rid: Uint16, apply: Callback): (Result<()>, Core) {
    if iid != 0 then (Err(NotFound), c)
    else if rid != 2 || c.state != Downloaded then (Err(MethodNotAllowed), c)
    else match apply
      case Unset => (Ok(()), c)
      case Gives(Ok(_)) => (Ok(()), c.(calls := c.calls + [ApplyUpdate], state := Updating))
      case Gives(e) => (e, c.(calls := c.calls + [ApplyUpdate], state := Idle, result := UpdateFailed))
  }

  function Report(c: Core, success: bool): Core {
    if c.state != Downloading then c
    else if success then c.(state := Downloaded)
    else c.(state := Idle, result := ConnectionLostDuringDownload)
  }

  function Complete(c: Core, r: UpdateResult): Core {
    var d := c.(state := Idle, result := r, data := []);
    if r == Success then d.(name := [], version := []) else d
  }

  function Apply(c: Core, s: Step): Core {
    match s
    case DoWrite(iid, rid, v, start, verify) => Write(c, iid, rid, v, start, verify).1
    case DoExecute(iid, rid, apply) => Execute(c, iid, rid, apply).1
    case DoPush(data, verify) => Push(c, data, verify).1
    case DoReport(success) => Report(c, success)
    case DoComplete(r) => Complete(c, r)
    case DoNamePackage(name, version) => c.(name := name, version := version)
  }

  /** The object after the first n steps of a history. */
  function After(steps: seq<Step>, n: nat): Core
    requires n <= |steps|
  {
    if n == 0 then Fresh else Apply(After(steps, n - 1), steps[n - 1])
  }

  // --- The object ----------------------------------------------------------

  class FirmwareUpdateObject {
    var state: FirmwareState
    var updateResult: UpdateResult
    var packageUri: seq<Byte>
    var packageData: seq<Byte>
    var packageName: seq<Byte>
    var packageVersion: seq<Byte>
    var calls: seq<Call>

    function Now(): Core
      reads this
    {
      Core(state, updateResult, packageUri, packageData, packageName, packageVersion, calls)
    }

    constructor ()
      ensures Now() == Core(Idle, Initial, [], [], [], [], [])
    {
      state, updateResult := Idle, Initial;
      packageUri, packageData, packageName, packageVersion, calls := [], [], [], [], [];
    }

    method WriteResource(iid: Uint16, rid: Uint16, v: ResourceValue, start: Callback, verify: Callback)
      returns (r: Result<()>)
      modifies this
      ensures (r, Now()) == Write(old(Now()), iid, rid, v, start, verify)
    {
      if iid != 0 {
        return Err(NotFound);
      }
      match rid {
        case 0 =>
          if state != Idle && state != Downloaded {
            return Err(MethodNotAllowed);
          }
          if v.Opaque? {
            r := PushPackage(v.bytes, verify);
            return;
          }
          r := Err(BadRequest);
        case 1 =>
          if state != Idle {
            return Err(MethodNotAllowed);
          }
          if !v.Text? {
            return Err(BadRequest);
          }
          packageUri := v.chars;
          updateResult := Initial;
          if start.Gives? {
            calls := calls + [StartDownload(v.chars)];
            if start.outcome.Ok? {
              state := Downloading;
            } else {
              updateResult := InvalidUri;
              return start.outcome;
            }
          }
          r := Ok(());
        case _ =>
          r := Err(MethodNotAllowed);
      }
    }

    method ExecuteResource(iid: Uint16, rid: Uint16, apply: Callback) returns (r: Result<()>)
      modifies this`state, this`updateResult, this`calls
      ensures (r, Now()) == Execute(old(Now()), iid, rid, apply)
    {
      if iid != 0 {
        return Err(NotFound);
      }
      if rid != 2 || state != Downloaded {
        return Err(MethodNotAllowed);
      }
      if apply.Gives? {
        state := Updating;
        calls := calls + [ApplyUpdate];
        if apply.outcome.Err? {
          state := Idle;
          updateResult := UpdateFailed;
          return apply.outcome;
        }
      }
      r := Ok(());
    }

    method PushPackage(data: seq<Byte>, verify: Callback) returns (r: Result<()>)
      modifies this`state, this`updateResult, this`packageData, this`calls
      ensures (r, Now()) == Push(old(Now()), data, verify)
    {
      if state != Idle && state != Downloaded {
        return Err(MethodNotAllowed);
      }
      packageData := data;
      updateResult := Initial;
      if verify.Gives? {
        calls := calls + [VerifyPackage(data)];
        if verify.outcome.Err? {
          packageData := [];
          updateResult := IntegrityCheckFailure;
          return verify.outcome;
        }
      }
      state := Downloaded;
      r := Ok(());
    }

    method DownloadComplete(success: bool)
      modifies this`state, this`updateResult
      ensures Now() == Report(old(Now()), success)
    {
      if state != Downloading {
        return;
      }
      if success {
        state := Downloaded;
      } else {
        state := Idle;
        updateResult := ConnectionLostDuringDownload;
      }
    }

    method UpdateComplete(result: UpdateResult)
      modifies this`state, this`updateResult, this`packageData, this`packageName, this`packageVersion
      ensures Now() == Complete(old(Now()), result)
    {
      state := Idle;
      updateResult := result;
      packageData := [];
      if result == Success {
        packageName := [];
        packageVersion := [];
      }
    }

    method SetPackageInfo(name: seq<Byte>, version: seq<Byte>)
      modifies this`packageName, this`packageVersion
      ensures Now() == old(Now()).(name := name, version := version)
    {
      packageName := name;
      packageVersion := version;
    }
  }

  // --- Where an applied update comes from ----------------------------------

  /** The package a step offers to the object, if the step reaches the push at all. */
  function Offered(s: Step): Option<(seq<Byte>, Callback)> {
    match s
    case DoPush(data, verify) => Some((data, verify))
    case DoWrite(iid, rid, v, _, verify) =>
      if iid == 0 && rid == 0 && v.Opaque? then Some((v.bytes, verify)) else None
    case _ => None
  }

  /** Step j pushes a package that passes verification. */
  ghost predicate PushedAt(steps: seq<Step>, j: nat, data: seq<Byte>)
    requires j < |steps|
  {
    && After(steps, j).state in {Idle, Downloaded}
    && Offered(steps[j]).Some? && Offered(steps[j]).value.0 == data && Offered(steps[j]).value.1.Agrees()
  }

  /** Step j pushes a package that verification refuses. */
  ghost predicate RefusedAt(steps: seq<Step>, j: nat)
    requires j < |steps|
  {
    && After(steps, j).state in {Idle, Downloaded}
    && Offered(steps[j]).Some? && !Offered(steps[j]).value.1.Agrees()
  }

  /** Step h starts a download from uri. */
  ghost predicate StartedAt(steps: seq<Step>, h: nat, uri: seq<Byte>)
    requires h < |steps|
  {
    && After(steps, h).state == Idle && steps[h].DoWrite? && steps[h].iid == 0 && steps[h].rid == 1
    && steps[h].value == Text(uri) && steps[h].start.Gives? && steps[h].start.outcome.Ok?
  }

  /** Step j reports the success of the download started from uri at step h, nothing but that
      download being under way in between. */
  ghost predicate FetchedAt(steps: seq<Step>, h: nat, j: nat, uri: seq<Byte>)
    requires h < j < |steps|
  {
    && StartedAt(steps, h, uri) && steps[j] == DoReport(true)
    && forall k :: h < k <= j ==> After(steps, k).state == Downloading
  }

  /** Between step j and the n-th state the object has been Downloaded throughout. */
  ghost predicate StaysDownloaded(steps: seq<Step>, j: nat, n: nat)
    requires j <= n <= |steps|
  {
    forall k :: j < k <= n ==> After(steps, k).state == Downloaded
  }

  /** How the object came to be Downloaded, seen from the n-th state: a push or a download. */
  datatype Source = Pushed(at: nat, package: seq<Byte>) | Fetched(started: nat, at: nat)

  ghost predicate Supplied(steps: seq<Step>, n: nat, src: Source)
    requires n <= |steps|
  {
    && src.at < n && StaysDownloaded(steps, src.at, n)
    && match src
       case Pushed(j, data) => PushedAt(steps, j, data)
       case Fetched(h, j) => h < j && FetchedAt(steps, h, j, After(steps, n).uri)
  }

  /** Nobody reports the end of a download or of an update between step h and the n-th state. */
  predicate Undisturbed(steps: seq<Step>, h: nat, n: nat)
    requires h <= n <= |steps|
  {
    forall k :: h < k < n ==> !steps[k].DoReport? && !steps[k].DoComplete?
  }

  /** While a download is under way it was started by a write of the URI now stored. */
  lemma {:induction false} DownloadingSince(steps: seq<Step>, n: nat) returns (h: nat)
    requires n <= |steps| && After(steps, n).state == Downloading
    ensures h < n && StartedAt(steps, h, After(steps, n).uri) && Undisturbed(steps, h, n)
    ensures forall k :: h < k <= n ==> After(steps, k).state == Downloading
  {
    if After(steps, n - 1).state == Downloading {
      h := DownloadingSince(steps, n - 1);
    } else {
      h := n - 1;
    }
  }

  lemma {:induction false} StaysDownloading(steps: seq<Step>, h: nat, n: nat, uri: seq<Byte>)
    requires h < n <= |steps| && StartedAt(steps, h, uri) && Undisturbed(steps, h, n)
    ensures After(steps, n).state == Downloading && After(steps, n).uri == uri
    ensures After(steps, n).result == Initial
  {
    if h < n - 1 {
      StaysDownloading(steps, h, n - 1, uri);
    }
  }

  /** Over every history a download is under way exactly when one was started and neither its end nor
      the end of an update has been reported since. */
  lemma DownloadingExactly(steps: seq<Step>, n: nat)
    requires n <= |steps|
    ensures After(steps, n).state == Downloading <==>
            exists h :: 0 <= h < n && StartedAt(steps, h, After(steps, n).uri) && Undisturbed(steps, h, n)
  {
    if After(steps, n).state == Downloading {
      var h := DownloadingSince(steps, n);
    }
    if h :| 0 <= h < n && StartedAt(steps, h, After(steps, n).uri) && Undisturbed(steps, h, n) {
      StaysDownloading(steps, h, n, After(steps, n).uri);
    }
  }

  /** The first report after a start decides: success leads to Downloaded, failure back to Idle with
      the lost connection as the result. A report that finds no download changes nothing. */
  lemma FirstReport(steps: seq<Step>, n: nat)
    requires n < |steps| && steps[n].DoReport?
    ensures var c, d := After(steps, n), After(steps, n + 1);
      if exists h :: 0 <= h < n && StartedAt(steps, h, c.uri) && Undisturbed(steps, h, n) then
        d == c.(state := if steps[n].success then Downloaded else Idle,
                result := if steps[n].success then Initial else ConnectionLostDuringDownload)
      else d == c
  {
    DownloadingExactly(steps, n);
    if h :| 0 <= h < n && StartedAt(steps, h, After(steps, n).uri) && Undisturbed(steps, h, n) {
      StaysDownloading(steps, h, n, After(steps, n).uri);
    }
  }

  lemma {:induction false} SourceOf(steps: seq<Step>, n: nat) returns (src: Source)
    requires n <= |steps| && After(steps, n).state == Downloaded
    ensures Supplied(steps, n, src)
  {
    var c, s := After(steps, n - 1), steps[n - 1];
    if c.state == Downloaded {
      if Offered(s).Some? && Offered(s).value.1.Agrees() {
        src := Pushed(n - 1, Offered(s).value.0);
      } else {
        src := SourceOf(steps, n - 1);
      }
    } else if c.state == Downloading {
      var h := DownloadingSince(steps, n - 1);
      src := Fetched(h, n - 1);
    } else {
      src := Pushed(n - 1, Offered(s).value.0);
    }
  }

  /** Step i calls the application to apply an update. */
  ghost predicate AppliesAt(steps: seq<Step>, i: nat)
    requires i < |steps|
  {
    ApplyUpdate in After(steps, i + 1).calls[|After(steps, i).calls|..]
  }

  lemma CallsGrow(c: Core, s: Step)
    ensures |c.calls| <= |Apply(c, s).calls| <= |c.calls| + 1
    ensures Apply(c, s).calls[..|c.calls|] == c.calls
  {
  }

  /** In every history an update is applied only in state Downloaded, and that state goes back,
      without a break, to a package that passed verification or to a download that succeeded. */
  lemma ApplySafety(steps: seq<Step>, i: nat)
    requires i < |steps| && AppliesAt(steps, i)
    ensures After(steps, i).state == Downloaded
    ensures exists src :: Supplied(steps, i, src)
  {
    CallsGrow(After(steps, i), steps[i]);
    var src := SourceOf(steps, i);
  }

  // --- Which package is on hand --------------------------------------------

  /** Step k empties the stored package: it is refused an offer or told that an update is over. */
  ghost predicate ClearedAt(steps: seq<Step>, k: nat)
    requires k < |steps|
  {
    RefusedAt(steps, k) || steps[k].DoComplete?
  }

  ghost predicate NoneCleared(steps: seq<Step>, j: nat, n: nat)
    requires j <= n <= |steps|
  {
    forall k :: j < k < n ==> !ClearedAt(steps, k)
  }

  ghost predicate NoneRefused(steps: seq<Step>, j: nat, n: nat)
    requires j <= n <= |steps|
  {
    forall k :: j < k < n ==> !RefusedAt(steps, k)
  }

  /** No step between j and the n-th state offered a package that passed. */
  ghost predicate NonePassed(steps: seq<Step>, j: nat, n: nat)
    requires j <= n <= |steps|
  {
    forall k, data :: j < k < n ==> !PushedAt(steps, k, data)
  }

  /** After the last package that passed, the stored package is that one exactly as long as
      nothing cleared it, whatever states, downloads and failed updates came in between. */
  lemma {:induction false} PackageOnHand(steps: seq<Step>, j: nat, n: nat, data: seq<Byte>)
    requires j < n <= |steps| && PushedAt(steps, j, data) && NonePassed(steps, j, n)
    ensures After(steps, n).data == if NoneCleared(steps, j, n) then data else []
  {
    if n == j + 1 {
      assert After(steps, n).data == data;
    } else {
      PackageOnHand(steps, j, n - 1, data);
      OffersDecide(steps, n - 1);
      assert NoneCleared(steps, j, n) <==> NoneCleared(steps, j, n - 1) && !ClearedAt(steps, n - 1);
    }
  }

  /** A step that does not store a package keeps or clears the one it finds. */
  lemma OffersDecide(steps: seq<Step>, k: nat)
    requires k < |steps| && forall data :: !PushedAt(steps, k, data)
    ensures After(steps, k + 1).data == if ClearedAt(steps, k) then [] else After(steps, k).data
  {
    var o := Offered(steps[k]);
    if o.Some? {
      assert !PushedAt(steps, k, o.value.0);
    }
  }

  /** The last source of a Downloaded state that came from a push is the last push that passed. */
  lemma {:induction false} LastSource(steps: seq<Step>, n: nat) returns (src: Source)
    requires n <= |steps| && After(steps, n).state == Downloaded
    ensures Supplied(steps, n, src) && NonePassed(steps, src.at, n)
  {
    var c, s := After(steps, n - 1), steps[n - 1];
    if c.state == Downloaded && !(Offered(s).Some? && Offered(s).value.1.Agrees()) {
      src := LastSource(steps, n - 1);
    } else {
      src := SourceOf(steps, n);
      if src.at < n - 1 {
        src := Pushed(n - 1, Offered(s).value.0);
      }
    }
  }

  /** So while the object is Downloaded after a push, the stored package is the one that was
      verified exactly when no later offer was refused (or the package was empty). */
  lemma DownloadedPackage(steps: seq<Step>, n: nat) returns (src: Source)
    requires n <= |steps| && After(steps, n).state == Downloaded
    ensures Supplied(steps, n, src) && NonePassed(steps, src.at, n)
    ensures src.Pushed? ==>
      (After(steps, n).data == src.package <==> NoneRefused(steps, src.at, n) || src.package == [])
  {
    src := LastSource(steps, n);
    if src.Pushed? {
      PackageOnHand(steps, src.at, n, src.package);
      forall k | src.at < k < n
        ensures ClearedAt(steps, k) <==> RefusedAt(steps, k)
      {
        assert After(steps, k + 1).state == Downloaded;
      }
      assert NoneCleared(steps, src.at, n) <==> NoneRefused(steps, src.at, n);
    }
  }

  /** And an update applied then finds that package under the same condition. */
  lemma AppliedPackage(steps: seq<Step>, i: nat) returns (src: Source)
    requires i < |steps| && AppliesAt(steps, i)
    ensures Supplied(steps, i, src) && NonePassed(steps, src.at, i)
    ensures src.Pushed? ==>
      (After(steps, i).data == src.package <==> NoneRefused(steps, src.at, i) || src.package == [])
  {
    ApplySafety(steps, i);
    src := DownloadedPackage(steps, i);
  }

  lemma {:induction false} AfterPrefix(steps: seq<Step>, more: seq<Step>, n: nat)
    requires n <= |steps|
    ensures After(steps + more, n) == After(steps, n)
    decreases n
  {
    if n > 0 {
      AfterPrefix(steps, more, n - 1);
      assert (steps + more)[n - 1] == steps[n - 1];
    }
  }

  lemma AfterNext(steps: seq<Step>, n: nat)
    requires n < |steps|
    ensures After(steps, n + 1) == Apply(After(steps, n), steps[n])
  {
  }

  lemma RefusedThenApplied(c: Core, data: seq<Byte>, e: ErrorCode, apply: Callback)
    requires c.state == Downloaded && apply.Gives?
    ensures var d := Apply(c, DoPush(data, Gives(Err(e))));
      d.data == [] && ApplyUpdate in Apply(d, DoExecute(0, 2, apply)).calls[|d.calls|..]
  {
  }

  /** Every history that ends Downloaded goes on to one that applies an update with no package: the
      state alone does not protect it. */
  lemma RefusalKeepsDownloaded(steps: seq<Step>, data: seq<Byte>, e: ErrorCode, apply: Callback)
    requires After(steps, |steps|).state == Downloaded && apply.Gives?
    ensures var all := steps + [DoPush(data, Gives(Err(e))), DoExecute(0, 2, apply)];
      AppliesAt(all, |steps| + 1) && After(all, |steps| + 1).data == []
  {
    hide After, Apply;
    var more := [DoPush(data, Gives(Err(e))), DoExecute(0, 2, apply)];
    var all := steps + more;
    AfterPrefix(steps, more, |steps|);
    AfterNext(all, |steps|);
    AfterNext(all, |steps| + 1);
    RefusedThenApplied(After(steps, |steps|), data, e, apply);
  }

  /** A download does not touch the stored package: after an update that failed, a later download
      reaches Downloaded with the old pushed package still stored. */
  lemma FetchedFindsOldPackage(data: seq<Byte>, uri: seq<Byte>, e: ErrorCode)
    ensures var steps := [DoPush(data, Unset), DoExecute(0, 2, Gives(Err(e))),
                          DoWrite(0, 1, Text(uri), Gives(Ok(())), Unset), DoReport(true)];
      Supplied(steps, 4, Fetched(2, 3)) && After(steps, 4).data == data
  {
    var steps := [DoPush(data, Unset), DoExecute(0, 2, Gives(Err(e))),
                  DoWrite(0, 1, Text(uri), Gives(Ok(())), Unset), DoReport(true)];
    assert After(steps, 1).state == Downloaded;
    assert After(steps, 2).state == Idle;
    assert After(steps, 3).state == Downloading;
  }

  // --- What each step leaves -----------------------------------------------

  /** Step k writes a URI that the object accepts. */
  ghost predicate AddressedAt(steps: seq<Step>, k: nat, uri: seq<Byte>)
    requires k < |steps|
  {
    && After(steps, k).state == Idle && steps[k].DoWrite? && steps[k].iid == 0 && steps[k].rid == 1
    && steps[k].value == Text(uri)
  }

  /** Step k executes the update in a state that allows it, with a callback set. */
  ghost predicate ExecutedAt(steps: seq<Step>, k: nat)
    requires k < |steps|
  {
    && After(steps, k).state == Downloaded && steps[k].DoExecute?
    && steps[k].executeIid == 0 && steps[k].executeRid == 2 && steps[k].apply.Gives?
  }

  lemma Occurrences(steps: seq<Step>, k: nat)
    requires k < |steps|
    ensures var c, s := After(steps, k), steps[k];
      && ((exists data :: PushedAt(steps, k, data)) <==>
          c.state in {Idle, Downloaded} && Offered(s).Some? && Offered(s).value.1.Agrees())
      && ((exists uri :: AddressedAt(steps, k, uri)) <==>
          c.state == Idle && s.DoWrite? && s.iid == 0 && s.rid == 1 && s.value.Text?)
      && ((exists uri :: StartedAt(steps, k, uri)) <==>
          (exists uri :: AddressedAt(steps, k, uri)) && s.start.Gives? && s.start.outcome.Ok?)
  {
    var c, s := After(steps, k), steps[k];
    if c.state in {Idle, Downloaded} && Offered(s).Some? && Offered(s).value.1.Agrees() {
      assert PushedAt(steps, k, Offered(s).value.0);
    }
    if c.state == Idle && s.DoWrite? && s.iid == 0 && s.rid == 1 && s.value.Text? {
      assert AddressedAt(steps, k, s.value.chars);
      assert s.start.Gives? && s.start.outcome.Ok? ==> StartedAt(steps, k, s.value.chars);
    }
  }

  /** The result readable after a step: set by an offer, an accepted URI, a failed update, a failed
      download, or the reported end of an update, and by nothing else. */
  lemma ResultAfter(steps: seq<Step>, k: nat)
    requires k < |steps|
    ensures var c, d, s := After(steps, k), After(steps, k + 1), steps[k];
      d.result ==
        if exists data :: PushedAt(steps, k, data) then Initial
        else if RefusedAt(steps, k) then IntegrityCheckFailure
        else if exists uri :: AddressedAt(steps, k, uri) then if s.start.Agrees() then Initial else InvalidUri
        else if ExecutedAt(steps, k) && s.apply.outcome.Err? then UpdateFailed
        else if c.state == Downloading && s == DoReport(false) then ConnectionLostDuringDownload
        else if s.DoComplete? then s.result
        else c.result
  {
    Occurrences(steps, k);
  }

  /** The state after a step. */
  lemma StateAfter(steps: seq<Step>, k: nat)
    requires k < |steps|
    ensures var c, d, s := After(steps, k), After(steps, k + 1), steps[k];
      d.state ==
        if exists data :: PushedAt(steps, k, data) then Downloaded
        else if exists uri :: StartedAt(steps, k, uri) then Downloading
        else if ExecutedAt(steps, k) then if s.apply.outcome.Ok? then Updating else Idle
        else if c.state == Downloading && s.DoReport? then if s.success then Downloaded else Idle
        else if s.DoComplete? then Idle
        else c.state
  {
    Occurrences(steps, k);
  }

  /** The names go when an update is reported successful and are otherwise what the application set;
      the URI is the last one accepted. */
  lemma NamesAfter(steps: seq<Step>, k: nat)
    requires k < |steps|
    ensures var c, d, s := After(steps, k), After(steps, k + 1), steps[k];
      && (d.name, d.version) ==
         (if s == DoComplete(Success) then ([], [])
          else if s.DoNamePackage? then (s.name, s.version) else (c.name, c.version))
      && (forall uri :: AddressedAt(steps, k, uri) ==> d.uri == uri)
      && ((forall uri :: !AddressedAt(steps, k, uri)) ==> d.uri == c.uri)
  {
    Occurrences(steps, k);
  }

  /** The callbacks a step makes: one at most, and only where the step is accepted and one is set. */
  lemma CallsAfter(steps: seq<Step>, k: nat)
    requires k < |steps|
    ensures var c, d, s := After(steps, k), After(steps, k + 1), steps[k];
      && (forall uri :: AddressedAt(steps, k, uri) ==>
            d.calls == if s.start.Gives? then c.calls + [StartDownload(uri)] else c.calls)
      && (c.state in {Idle, Downloaded} && Offered(s).Some? ==>
            d.calls == if Offered(s).value.1.Gives? then c.calls + [VerifyPackage(Offered(s).value.0)] else c.calls)
      && (ExecutedAt(steps, k) ==> d.calls == c.calls + [ApplyUpdate])
      && ((forall uri :: !AddressedAt(steps, k, uri)) ==>
            (c.state in {Idle, Downloaded} && Offered(s).Some?) || ExecutedAt(steps, k) || d.calls == c.calls)
  {
    Occurrences(steps, k);
  }

  /** The answer to a write: the object's own refusals, or what the callback says. */
  lemma WriteAnswer(c: Core, iid: Uint16, rid: Uint16, v: ResourceValue, start: Callback, verify: Callback)
    ensures var r := Write(c, iid, rid, v, start, verify).0;
      && (iid != 0 ==> r == Err(NotFound))
      && (iid == 0 && rid > 1 ==> r == Err(MethodNotAllowed))
      && (iid == 0 && rid == 0 && c.state in {Downloading, Updating} ==> r == Err(MethodNotAllowed))
      && (iid == 0 && rid == 1 && c.state != Idle ==> r == Err(MethodNotAllowed))
      && (iid == 0 && rid == 0 && c.state in {Idle, Downloaded} ==>
            r == if !v.Opaque? then Err(BadRequest) else if verify.Agrees() then Ok(()) else verify.outcome)
      && (iid == 0 && rid == 1 && c.state == Idle ==>
            r == if !v.Text? then Err(BadRequest) else if start.Agrees() then Ok(()) else start.outcome)
      && (c.state in {Downloading, Updating} ==> Push(c, [], verify).0 == Err(MethodNotAllowed))
  {
  }

  lemma ExecuteAnswer(c: Core, iid: Uint16, rid: Uint16, apply: Callback)
    ensures Execute(c, iid, rid, apply).0 ==
      if iid != 0 then Err(NotFound)
      else if rid == 2 && c.state == Downloaded then if apply.Agrees() then Ok(()) else apply.outcome
      else Err(MethodNotAllowed)
  {
  }

  // --- States and results --------------------------------------------------

  /** A download under way or a package at hand never carries an old failure: the result is the
      initial one, or the refusal of an offer that left no package. */
  lemma {:induction false} ResultFitsState(steps: seq<Step>, n: nat)
    requires n <= |steps|
    ensures After(steps, n).state == Downloading ==> After(steps, n).result == Initial
    ensures After(steps, n).state == Downloaded ==>
      var c := After(steps, n);
      c.result == Initial || (c.result == IntegrityCheckFailure && c.data == [])
  {
    if n > 0 {
      ResultFitsState(steps, n - 1);
    }
  }
}
