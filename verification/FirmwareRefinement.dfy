/** The two models of the Firmware Update object agree: an operation of either thread that runs
    without the other in between does, in its atomic steps, what the object does in one. */
module FirmwareRefinement {
  import opened Wrappers
  import opened MachineInts
  import F = Firmware
  import opened FirmwareThreads

  /** What the callbacks will do. */
  datatype Callbacks = Callbacks(verify: F.Callback, start: F.Callback, apply: F.Callback)

  /** The next atomic step of the CoAP thread inside an operation. */
  function MainStep(m: Main, k: Callbacks): Step
    requires m != Ready
  {
    match m
    case PushFirstLoad | PushSecondLoad | PushAgain | PushAgainSecond => Load
    case PushVerify => Verify(k.verify.Agrees())
    case UriCallback => if k.start.Unset? then Skip else if k.start.outcome.Ok? then Begin else Refuse
    case ExecuteCallback => Apply(!k.apply.Agrees())
    case _ => Store
  }

  /** How many atomic steps an operation has left, at most. */
  function Left(m: Main): nat {
    match m
    case Ready => 0
    case PushFirstLoad => 6
    case PushSecondLoad => 5
    case PushAgain => 4
    case PushAgainSecond => 3
    case PushVerify => 2
    case UriCallback => 2
    case ExecuteStore => 4
    case ExecuteCallback => 3
    case FailStore => 2
    case _ => 1
  }

  /** The CoAP thread runs its operation to the end; it waits if a download is still to report. */
  function Finishing(c: Config, k: Callbacks): Config
    decreases Left(c.main)
  {
    if c.main == Ready || !Enabled(c, MainStep(c.main, k)) then c
    else Finishing(Next(c, MainStep(c.main, k)), k)
  }

  /** The download thread reports and stores, if it has a download to report. */
  function Reporting(c: Config, success: bool): Config {
    if c.download != Running then c
    else
      var d := Next(c, Finish(success));
      if !d.download.Heard? then d
      else
        var e := Next(d, Settle);
        if e.download == FailedResult then Next(e, Settle) else e
  }

  function CallbacksOf(s: F.Step): Callbacks {
    match s
    case DoWrite(_, _, _, start, verify) => Callbacks(verify, start, F.Unset)
    case DoExecute(_, _, apply) => Callbacks(F.Unset, F.Unset, apply)
    case DoPush(_, verify) => Callbacks(verify, F.Unset, F.Unset)
    case _ => Callbacks(F.Unset, F.Unset, F.Unset)
  }

  /** The first atomic step of an operation that gets past its arguments. */
  function Call(s: F.Step): Option<Step> {
    match s
    case DoWrite(iid, rid, v, _, _) =>
      if iid == 0 && rid == 0 && v.Opaque? then Some(CallWritePackage)
      else if iid == 0 && rid == 1 && v.Text? then Some(CallWriteUri)
      else None
    case DoExecute(iid, rid, apply) =>
      if iid == 0 && rid == 2 then Some(CallExecute(apply.Gives?)) else None
    case DoPush(_, _) => Some(CallPush)
    case DoComplete(r) => Some(CallComplete(r))
    case _ => None
  }

  /** One operation from its call to its end, with nothing in between. */
  function Alone(c: Config, s: F.Step): Config
    requires c.main == Ready
  {
    if s.DoReport? then Reporting(c, s.success)
    else match Call(s)
      case None => c
      case Some(call) => Finishing(Next(c, call), CallbacksOf(s))
  }

  /** Between operations run one after the other the shared state is the object's, and a download is
      reported before its state is left. */
  predicate Same(c: Config, f: F.Core) {
    && c.main == Ready && c.state == f.state && c.result == f.result
    && (c.state == F.Downloading ==> c.download == Running)
    && !c.download.Heard? && c.download != FailedResult
  }

  /** The download callback is not asked to start a second download. */
  predicate OneDownload(c: Config, s: F.Step) {
    s.DoWrite? && s.start.Gives? && s.start.outcome.Ok? ==> c.download != Running
  }

  lemma Goes(c: Config, k: Callbacks)
    requires c.main != Ready && Enabled(c, MainStep(c.main, k))
    ensures Finishing(c, k) == Finishing(Next(c, MainStep(c.main, k)), k)
  {
  }

  lemma Ends(c: Config, k: Callbacks)
    requires c.main == Ready
    ensures Finishing(c, k) == c
  {
  }

  /** The package is verified and stored or not. */
  lemma VerifyAlone(c: Config, k: Callbacks)
    requires c.main == PushVerify
    ensures var d := Finishing(c, k);
      && d.main == Ready && d.download == c.download
      && d.state == (if k.verify.Agrees() then F.Downloaded else c.state)
      && d.result == (if k.verify.Agrees() then c.result else F.IntegrityCheckFailure)
  {
    hide Finishing;
    var c1 := Next(c, Verify(k.verify.Agrees()));
    Goes(c, k);
    if c1.main == PushStore {
      Goes(c1, k);
      Ends(Next(c1, Store), k);
    } else {
      Ends(c1, k);
    }
  }

  lemma PushAlone(c: Config, f: F.Core, data: seq<Byte>, k: Callbacks)
    requires c.main == PushAgain && Same(c.(main := Ready), f)
    ensures Same(Finishing(c, k), F.Push(f, data, k.verify).1)
  {
    hide Finishing;
    var c1 := Next(c, Load);
    Goes(c, k);
    if c1.main == PushVerify {
      VerifyAlone(c1, k);
    } else {
      var c2 := Next(c1, Load);
      Goes(c1, k);
      if c2.main == PushVerify {
        VerifyAlone(c2, k);
      } else {
        Ends(c2, k);
      }
    }
  }

  lemma PackageAlone(c: Config, f: F.Core, data: seq<Byte>, k: Callbacks)
    requires Same(c, f)
    ensures Same(Finishing(Next(c, CallWritePackage), k), F.Push(f, data, k.verify).1)
  {
    hide Finishing;
    var c1 := Next(c, CallWritePackage);
    var c2 := Next(c1, Load);
    Goes(c1, k);
    if c2.main == PushAgain {
      PushAlone(c2, f, data, k);
    } else {
      var c3 := Next(c2, Load);
      Goes(c2, k);
      if c3.main == PushAgain {
        PushAlone(c3, f, data, k);
      } else {
        Ends(c3, k);
      }
    }
  }

  lemma UriAlone(c: Config, f: F.Core, uri: seq<Byte>, k: Callbacks)
    requires Same(c, f) && (k.start.Gives? && k.start.outcome.Ok? ==> c.download != Running)
    ensures Same(Finishing(Next(c, CallWriteUri), k), if f.state == F.Idle then F.FetchFrom(f, uri, k.start).1 else f)
  {
    hide Finishing;
    var c1 := Next(c, CallWriteUri);
    if c1.main == Ready {
      Ends(c1, k);
    } else {
      var c2 := Next(c1, MainStep(c1.main, k));
      Goes(c1, k);
      if c2.main == UriStore {
        Goes(c2, k);
        Ends(Next(c2, Store), k);
      } else {
        Ends(c2, k);
      }
    }
  }

  lemma ExecuteAlone(c: Config, f: F.Core, k: Callbacks)
    requires Same(c, f)
    ensures Same(Finishing(Next(c, CallExecute(k.apply.Gives?)), k), F.Execute(f, 0, 2, k.apply).1)
  {
    hide Finishing;
    var c1 := Next(c, CallExecute(k.apply.Gives?));
    if c1.main == Ready {
      Ends(c1, k);
    } else {
      var c2 := Next(c1, Store);
      Goes(c1, k);
      ApplyAlone(c2, k);
    }
  }

  /** The update callback runs, and its failure is stored. */
  lemma ApplyAlone(c: Config, k: Callbacks)
    requires c.main == ExecuteCallback
    ensures var d := Finishing(c, k);
      && d.main == Ready && d.download == c.download
      && d.state == (if k.apply.Agrees() then c.state else F.Idle)
      && d.result == (if k.apply.Agrees() then c.result else F.UpdateFailed)
  {
    hide Finishing;
    var c1 := Next(c, MainStep(c.main, k));
    Goes(c, k);
    if c1.main == FailStore {
      var c2 := Next(c1, Store);
      Goes(c1, k);
      Goes(c2, k);
      Ends(Next(c2, Store), k);
    } else {
      Ends(c1, k);
    }
  }

  lemma CompleteAlone(c: Config, f: F.Core, r: F.UpdateResult, k: Callbacks)
    requires Same(c, f)
    ensures Same(Finishing(Next(c, CallComplete(r)), k), F.Complete(f, r))
  {
    hide Finishing;
    var c1 := Next(c, CallComplete(r));
    Goes(c1, k);
    Ends(Next(c1, Store), k);
  }

  lemma ReportAlone(c: Config, f: F.Core, success: bool)
    requires Same(c, f)
    ensures Same(Reporting(c, success), F.Report(f, success))
  {
  }

  /** Run alone, every operation has the effect it has on the object. */
  lemma AloneRefines(c: Config, f: F.Core, s: F.Step)
    requires Same(c, f) && OneDownload(c, s)
    ensures Same(Alone(c, s), F.Apply(f, s))
  {
    hide Finishing, Reporting, Next;
    match s {
      case DoWrite(_, _, v, _, _) =>
        if Call(s) == Some(CallWritePackage) {
          PackageAlone(c, f, v.bytes, CallbacksOf(s));
        } else if Call(s) == Some(CallWriteUri) {
          UriAlone(c, f, v.chars, CallbacksOf(s));
        }
      case DoPush(data, _) =>
        assert Next(c, CallPush) == c.(main := PushAgain) by {
          PushStarts(c);
        }
        PushAlone(Next(c, CallPush), f, data, CallbacksOf(s));
      case DoExecute(_, _, _) => ExecuteAlone(c, f, CallbacksOf(s));
      case DoComplete(r) => CompleteAlone(c, f, r, CallbacksOf(s));
      case DoReport(success) => ReportAlone(c, f, success);
      case DoNamePackage(_, _) =>
    }
  }

  lemma PushStarts(c: Config)
    requires c.main == Ready
    ensures Next(c, CallPush) == c.(main := PushAgain)
  {
  }

  /** Operations of both threads run one after the other, none overlapping another. */
  ghost predicate Serial(c: Config, steps: seq<F.Step>)
    decreases |steps|
  {
    steps == [] || (c.main == Ready && OneDownload(c, steps[0]) && Serial(Alone(c, steps[0]), steps[1..]))
  }

  ghost function SerialRun(c: Config, steps: seq<F.Step>): Config
    requires Serial(c, steps)
    decreases |steps|
  {
    if steps == [] then c else SerialRun(Alone(c, steps[0]), steps[1..])
  }

  function RunObject(f: F.Core, steps: seq<F.Step>): F.Core
    decreases |steps|
  {
    if steps == [] then f else RunObject(F.Apply(f, steps[0]), steps[1..])
  }

  /** Over every such history the two models agree. */
  lemma {:induction false} SerialRefines(c: Config, f: F.Core, steps: seq<F.Step>)
    requires Same(c, f) && Serial(c, steps)
    ensures Same(SerialRun(c, steps), RunObject(f, steps))
    decreases |steps|
  {
    hide Same, Alone, F.Apply;
    if steps != [] {
      AloneRefines(c, f, steps[0]);
      SerialRefines(Alone(c, steps[0]), F.Apply(f, steps[0]), steps[1..]);
    }
  }

  /** From a new object of each kind. */
  lemma SerialFromNew(steps: seq<F.Step>)
    requires Serial(Start, steps)
    ensures Same(SerialRun(Start, steps), RunObject(F.Core(F.Idle, F.Initial, [], [], [], [], []), steps))
  {
    SerialRefines(Start, F.Fresh, steps);
  }

  // --- Atomic steps of an operation alone are a run of both threads --------

  lemma {:induction false} FinishingRuns(c: Config, k: Callbacks) returns (steps: seq<Step>)
    ensures AllEnabled(c, steps) && Run(c, steps) == Finishing(c, k)
    decreases Left(c.main)
  {
    if c.main == Ready || !Enabled(c, MainStep(c.main, k)) {
      steps := [];
    } else {
      var s := MainStep(c.main, k);
      var rest := FinishingRuns(Next(c, s), k);
      RunCons(c, s, rest);
      steps := [s] + rest;
    }
  }

  lemma ReportingRuns(c: Config, success: bool) returns (steps: seq<Step>)
    ensures AllEnabled(c, steps) && Run(c, steps) == Reporting(c, success)
  {
    if c.download != Running {
      return [];
    }
    var d := Next(c, Finish(success));
    if !d.download.Heard? {
      RunCons(c, Finish(success), []);
      return [Finish(success)] + [];
    }
    var e := Next(d, Settle);
    if e.download == FailedResult {
      RunCons(e, Settle, []);
      RunCons(d, Settle, [Settle] + []);
      RunCons(c, Finish(success), [Settle] + ([Settle] + []));
      return [Finish(success)] + ([Settle] + ([Settle] + []));
    }
    RunCons(d, Settle, []);
    RunCons(c, Finish(success), [Settle] + []);
    steps := [Finish(success)] + ([Settle] + []);
  }

  /** So what holds over every interleaving holds of operations run alone. */
  lemma AloneRuns(c: Config, s: F.Step) returns (steps: seq<Step>)
    requires c.main == Ready
    ensures AllEnabled(c, steps) && Run(c, steps) == Alone(c, s)
  {
    if s.DoReport? {
      steps := ReportingRuns(c, s.success);
    } else if Call(s).None? {
      steps := [];
    } else {
      var rest := FinishingRuns(Next(c, Call(s).value), CallbacksOf(s));
      RunCons(c, Call(s).value, rest);
      steps := [Call(s).value] + rest;
    }
  }
}
