/** The Firmware Update object shared by two threads: the CoAP thread, which writes, executes and
    reports the end of an update, and the download thread, which reports the end of a download.
    Each load or store of the atomic state is a step of its own, so the threads interleave there. */
module FirmwareThreads {
  import opened Firmware

  /** Where the CoAP thread is inside an operation; each name says what it does next. */
  datatype Main =
    | Ready
    | PushFirstLoad | PushSecondLoad | PushAgain | PushAgainSecond | PushVerify | PushStore
    | UriCallback | UriStore
    | ExecuteStore | ExecuteCallback | FailStore | FailResult
    | CompleteResult(result: UpdateResult)

  /** Where the download thread is. A report whose load finds Downloading is heard and goes on to
      store; any other is missed. */
  datatype Download = Absent | Running | Heard(success: bool) | FailedResult | Reported | Missed

  /** What is stored in the state and by whom, what justifies a store of Downloaded (a package
      that passed, a successful download that was heard), and when an update is applied. */
  datatype Event = Stored(writer: Writer, value: FirmwareState) | Passed | Arrived | Applied
  datatype Writer = ByPush | ByUri | ByExecute | ByFailure | ByComplete | ByDownload

  /** The shared state and result, both threads, and three facts about the current download kept
      only to state properties: whether Downloading has been stored for it, whether the end of an
      update was reported after that, and whether its own report came before that. */
  datatype Config = Config(state: FirmwareState, result: UpdateResult, main: Main, download: Download,
                           begun: bool, cancelled: bool, early: bool, log: seq<Event>)

  const Start: Config := Config(Idle, Initial, Ready, Absent, false, false, false, [])

  datatype Step =
    | CallWritePackage | CallPush | CallWriteUri
    | CallExecute(canApply: bool) // whether the update callback is set
    | CallComplete(result: UpdateResult)
    | Load                      // one load of the state, in the middle of an operation
    | Verify(passes: bool)      // the verification callback returns
    | Store                     // one store, in the middle of an operation
    | Begin                     // the download callback starts the download thread and returns
    | Refuse                    // the download callback returns an error
    | Skip                      // there is no download callback
    | Apply(fails: bool)        // the update callback runs
    | Finish(success: bool)     // the download thread reports: its load
    | Settle                    // the download thread stores
  {
    predicate CompleteOrSettle() { CallComplete? || Settle? }
  }

  /** A download occupies its thread until its report has returned; another starts only then. */
  predicate Active(d: Download) {
    d in {Running, FailedResult} || d.Heard?
  }

  predicate Enabled(c: Config, s: Step) {
    match s
    case CallWritePackage | CallPush | CallWriteUri | CallExecute(_) | CallComplete(_) => c.main == Ready
    case Load => c.main in {PushFirstLoad, PushSecondLoad, PushAgain, PushAgainSecond}
    case Verify(_) => c.main == PushVerify
    case Store => c.main in {PushStore, UriStore, ExecuteStore, FailStore, FailResult} || c.main.CompleteResult?
    case Begin => c.main == UriCallback && !Active(c.download)
    case Refuse | Skip => c.main == UriCallback
    case Apply(_) => c.main == ExecuteCallback
    case Finish(_) => c.download == Running
    case Settle => c.download.Heard? || c.download == FailedResult
  }

  function Put(c: Config, w: Writer, v: FirmwareState, next: Main): Config {
    c.(state := v, main := next, log := c.log + [Stored(w, v)])
  }

  function Next(c: Config, s: Step): Config
    requires Enabled(c, s)
  {
    match s
    case CallWritePackage => c.(main := PushFirstLoad)
    case CallPush => c.(main := PushAgain)
    case CallWriteUri =>
      if c.state == Idle then c.(result := Initial, main := UriCallback) else c
    case CallExecute(canApply) =>
      if c.state == Downloaded && canApply then c.(main := ExecuteStore) else c
    case CallComplete(r) =>
      Put(c, ByComplete, Idle, CompleteResult(r)).(cancelled := true)
    case Load => NextLoad(c)
    case Verify(passes) =>
      if passes then c.(main := PushStore, log := c.log + [Passed])
      else c.(result := IntegrityCheckFailure, main := Ready)
    case Store => NextStore(c)
    case Begin => c.(main := UriStore, download := Running, begun := false, cancelled := false, early := false)
    case Refuse => c.(result := InvalidUri, main := Ready)
    case Skip => c.(main := Ready)
    case Apply(fails) =>
      c.(log := c.log + [Applied], main := if fails then FailStore else Ready)
    case Finish(success) =>
      if c.state == Downloading
      then c.(download := Heard(success), log := if success then c.log + [Arrived] else c.log)
      else c.(download := Missed, early := !c.begun)
    case Settle =>
      match c.download
      case Heard(true) => Put(c, ByDownload, Downloaded, c.main).(download := Reported)
      case Heard(false) => Put(c, ByDownload, Idle, c.main).(download := FailedResult)
      case _ => c.(result := ConnectionLostDuringDownload, download := Reported)
  }

  /** The two loads of a state check: the second is taken only if the first does not find Idle. */
  function NextLoad(c: Config): Config
    requires c.main in {PushFirstLoad, PushSecondLoad, PushAgain, PushAgainSecond}
  {
    match c.main
    case PushFirstLoad => c.(main := if c.state == Idle then PushAgain else PushSecondLoad)
    case PushSecondLoad => c.(main := if c.state == Downloaded then PushAgain else Ready)
    case PushAgain =>
      if c.state == Idle then c.(result := Initial, main := PushVerify) else c.(main := PushAgainSecond)
    case _ =>
      if c.state == Downloaded then c.(result := Initial, main := PushVerify) else c.(main := Ready)
  }

  function NextStore(c: Config): Config
    requires Enabled(c, Store)
  {
    match c.main
    case PushStore => Put(c, ByPush, Downloaded, Ready)
    case UriStore => Put(c, ByUri, Downloading, Ready).(begun := true)
    case ExecuteStore => Put(c, ByExecute, Updating, ExecuteCallback)
    case FailStore => Put(c, ByFailure, Idle, FailResult)
    case FailResult => c.(result := UpdateFailed, main := Ready)
    case _ => c.(result := c.main.result, main := Ready)
  }

  // --- Runs ----------------------------------------------------------------

  predicate AllEnabled(c: Config, steps: seq<Step>)
    decreases |steps|
  {
    steps == [] || (Enabled(c, steps[0]) && AllEnabled(Next(c, steps[0]), steps[1..]))
  }

  function Run(c: Config, steps: seq<Step>): Config
    requires AllEnabled(c, steps)
    decreases |steps|
  {
    if steps == [] then c else Run(Next(c, steps[0]), steps[1..])
  }

  // --- Completions are not lost --------------------------------------------

  /** The current download is one the state still waits for: Downloading has been stored for it,
      no end of update was reported since, and its report is outstanding or came too soon. */
  predicate Awaited(c: Config) {
    && c.begun && !c.cancelled
    && (c.download == Running || c.download.Heard? || (c.download == Missed && c.early))
  }

  ghost predicate Consistent(c: Config) {
    && (c.state == Downloading <==> Awaited(c))
    && (c.early ==> c.download == Missed)
    && (c.main == UriStore ==> !c.begun && !c.cancelled && (c.download == Running || (c.download == Missed && c.early)))
    && (c.download == Absent ==> !c.begun)
    && (!c.begun && c.download != Absent ==> c.main == UriStore)
    && (c.main in {PushVerify, PushStore, UriCallback, UriStore, ExecuteStore, ExecuteCallback, FailStore}
        ==> c.state != Downloading)
  }

  lemma ConsistentStep(c: Config, s: Step)
    requires Consistent(c) && Enabled(c, s)
    ensures Consistent(Next(c, s))
  {
  }

  lemma {:induction false} RunConsistent(c: Config, steps: seq<Step>)
    requires Consistent(c) && AllEnabled(c, steps)
    ensures Consistent(Run(c, steps))
    decreases |steps|
  {
    if steps != [] {
      ConsistentStep(c, steps[0]);
      RunConsistent(Next(c, steps[0]), steps[1..]);
    }
  }

  /** No step of the run is a call of the given kind. */
  predicate Without(steps: seq<Step>, p: Step -> bool) {
    forall i :: 0 <= i < |steps| ==> !p(steps[i])
  }

  /** A report made once Downloading is stored is heard, unless the end of an update was reported
      since; and whatever the other thread does before the store that follows, the report decides
      the state. */
  lemma ReportNotLost(c: Config, ok: bool, between: seq<Step>)
    requires Consistent(c) && c.download == Running
    requires AllEnabled(Next(c, Finish(ok)), between) && Without(between, (s: Step) => s.CompleteOrSettle())
    ensures Next(c, Finish(ok)).download == Heard(ok) <==> c.begun && !c.cancelled
    ensures c.begun && !c.cancelled ==>
      var d := Run(Next(c, Finish(ok)), between);
      Enabled(d, Settle) && d.state == Downloading && Next(d, Settle).state == if ok then Downloaded else Idle
  {
    ConsistentStep(c, Finish(ok));
    if c.begun && !c.cancelled {
      StaysHeard(Next(c, Finish(ok)), ok, between);
    }
  }

  lemma {:induction false} StaysHeard(c: Config, ok: bool, between: seq<Step>)
    requires Consistent(c) && c.download == Heard(ok) && Awaited(c)
    requires AllEnabled(c, between) && Without(between, (s: Step) => s.CompleteOrSettle())
    ensures var d := Run(c, between); d.download == Heard(ok) && d.state == Downloading
    decreases |between|
  {
    if between != [] {
      assert !between[0].CompleteOrSettle();
      ConsistentStep(c, between[0]);
      assert forall i :: 0 <= i < |between| - 1 ==> between[1..][i] == between[i + 1];
      StaysHeard(Next(c, between[0]), ok, between[1..]);
    }
  }

  /** In every run the object sits in Downloading with no download left to report exactly when the
      report came before Downloading was stored and no end of update has been reported since. */
  lemma StuckExactly(steps: seq<Step>)
    requires AllEnabled(Start, steps)
    ensures var c := Run(Start, steps);
      c.state == Downloading && !Active(c.download) <==>
      c.download == Missed && c.early && c.begun && !c.cancelled
  {
    RunConsistent(Start, steps);
  }

  /** And there it stays until the end of an update is reported. */
  lemma {:induction false} StuckStays(c: Config, steps: seq<Step>)
    requires Consistent(c) && c.state == Downloading && !Active(c.download)
    requires AllEnabled(c, steps) && Without(steps, (s: Step) => s.CallComplete?)
    ensures var d := Run(c, steps); d.state == Downloading && !Active(d.download)
    decreases |steps|
  {
    if steps != [] {
      assert !steps[0].CallComplete?;
      ConsistentStep(c, steps[0]);
      assert forall i :: 0 <= i < |steps| - 1 ==> steps[1..][i] == steps[i + 1];
      StuckStays(Next(c, steps[0]), steps[1..]);
    }
  }

  /** Such a report is always possible: whenever a download can be started, it can report before
      its start has returned. */
  lemma EarlyReportSticks(c: Config, ok: bool)
    requires Consistent(c) && Enabled(c, Begin)
    ensures var d := Next(c, Begin);
      && Enabled(d, Finish(ok)) && Enabled(Next(d, Finish(ok)), Store)
      && var e := Next(Next(d, Finish(ok)), Store);
         e.state == Downloading && !Active(e.download)
  {
    ConsistentStep(c, Begin);
  }

  // --- Updates are applied only when justified -----------------------------

  /** Every applied update is the end of one of two unbroken sequences of events: a package passed
      or a successful download was heard, Downloaded was stored for it, then Updating. */
  predicate Justified(log: seq<Event>, i: nat)
    requires i < |log|
  {
    && i >= 3 && log[i - 1] == Stored(ByExecute, Updating)
    && Supplies(log[i - 3], log[i - 2])
  }

  predicate Supplies(cause: Event, store: Event) {
    || (cause == Passed && store == Stored(ByPush, Downloaded))
    || (cause == Arrived && store == Stored(ByDownload, Downloaded))
  }

  ghost predicate Safe(log: seq<Event>) {
    forall i :: 0 <= i < |log| && log[i] == Applied ==> Justified(log, i)
  }

  /** The end of an update is not reported between the two halves of a download's report. */
  predicate Orderly(c: Config, steps: seq<Step>)
    requires AllEnabled(c, steps)
    decreases |steps|
  {
    steps == [] ||
    (!(steps[0].CallComplete? && c.download.Heard?) && Orderly(Next(c, steps[0]), steps[1..]))
  }

  ghost predicate Secured(c: Config) {
    var n := |c.log|;
    && Consistent(c) && Safe(c.log)
    && (c.download.Heard? ==> c.state == Downloading)
    && (c.download == Heard(true) ==> n >= 1 && c.log[n - 1] == Arrived)
    && (c.main == PushStore ==> n >= 1 && c.log[n - 1] == Passed)
    && (c.state == Downloaded && c.main != PushStore ==> n >= 2 && Supplies(c.log[n - 2], c.log[n - 1]))
    && (c.main == ExecuteStore ==> c.state == Downloaded)
    && (c.main == ExecuteCallback ==>
        n >= 3 && c.log[n - 1] == Stored(ByExecute, Updating) && Supplies(c.log[n - 3], c.log[n - 2]))
  }

  lemma SafeSnoc(log: seq<Event>, e: Event)
    requires Safe(log) && (e == Applied ==> Justified(log + [e], |log|))
    ensures Safe(log + [e])
  {
    forall i | 0 <= i < |log| + 1 && (log + [e])[i] == Applied
      ensures Justified(log + [e], i)
    {
      if i < |log| {
        assert Justified(log, i);
      }
    }
  }

  lemma LogGrows(c: Config, s: Step)
    requires Enabled(c, s)
    ensures var log := Next(c, s).log;
      log == c.log || (|log| == |c.log| + 1 && log == c.log + [log[|c.log|]])
    ensures var log := Next(c, s).log;
      |log| == |c.log| + 1 ==> (log[|c.log|] == Applied <==> s.Apply?)
  {
    if s.Store? {
      StoreGrows(c);
    }
  }

  lemma StoreGrows(c: Config)
    requires Enabled(c, Store)
    ensures var log := NextStore(c).log;
      log == c.log || exists w, v :: log == c.log + [Stored(w, v)]
  {
    var log := NextStore(c).log;
    if log != c.log {
      var e := log[|c.log|];
      assert log == c.log + [Stored(e.writer, e.value)];
    }
  }

  lemma StepSafe(c: Config, s: Step)
    requires Secured(c) && Enabled(c, s)
    ensures Safe(Next(c, s).log)
  {
    hide Safe, Consistent, Next, NextLoad, NextStore;
    var d := Next(c, s);
    LogGrows(c, s);
    if d.log != c.log {
      SafeSnoc(c.log, d.log[|c.log|]);
    }
  }

  lemma SecuredCall(c: Config, s: Step)
    requires Secured(c) && Enabled(c, s) && !(s.CallComplete? && c.download.Heard?)
    requires !s.Store? && !s.Finish? && !s.Settle? && !s.Apply?
    ensures Secured(Next(c, s))
  {
    hide Safe, Supplies, Awaited;
    ConsistentStep(c, s);
    StepSafe(c, s);
  }

  lemma SecuredStore(c: Config)
    requires Secured(c) && Enabled(c, Store)
    ensures Secured(Next(c, Store))
  {
    hide Safe;
    ConsistentStep(c, Store);
    StepSafe(c, Store);
  }

  lemma SecuredStep(c: Config, s: Step)
    requires Secured(c) && Enabled(c, s) && !(s.CallComplete? && c.download.Heard?)
    ensures Secured(Next(c, s))
  {
    if s.Store? {
      SecuredStore(c);
    } else if s.Finish? || s.Settle? || s.Apply? {
      hide Safe;
      ConsistentStep(c, s);
      StepSafe(c, s);
    } else {
      SecuredCall(c, s);
    }
  }

  lemma {:induction false} ApplySafety(c: Config, steps: seq<Step>)
    requires Secured(c) && AllEnabled(c, steps) && Orderly(c, steps)
    ensures Secured(Run(c, steps))
    decreases |steps|
  {
    if steps != [] {
      SecuredStep(c, steps[0]);
      ApplySafety(Next(c, steps[0]), steps[1..]);
    }
  }

  /** From a new object, in every interleaving, no update is applied without its justification. */
  lemma AppliedJustified(steps: seq<Step>)
    requires AllEnabled(Start, steps) && Orderly(Start, steps)
    ensures Safe(Run(Start, steps).log)
  {
    ApplySafety(Start, steps);
  }

  /** Some orderly run from here ends with this log. */
  ghost predicate Reaches(c: Config, log: seq<Event>) {
    exists steps :: AllEnabled(c, steps) && Orderly(c, steps) && Run(c, steps).log == log
  }

  lemma ReachesBack(c: Config, s: Step, log: seq<Event>)
    requires Enabled(c, s) && !s.CallComplete? && Reaches(Next(c, s), log)
    ensures Reaches(c, log)
  {
    var rest :| AllEnabled(Next(c, s), rest) && Orderly(Next(c, s), rest) && Run(Next(c, s), rest).log == log;
    var steps := [s] + rest;
    assert steps[1..] == rest;
    assert AllEnabled(c, steps) && Orderly(c, steps) && Run(c, steps).log == log;
  }

  /** Otherwise a package pushed and executed at once can be applied after the late half of the
      report has overwritten the state. */
  lemma PushedAtOnce(c: Config) returns (d: Config)
    requires c.main == Ready && c.state == Idle
    ensures d.main == ExecuteStore && d.download == c.download
    ensures forall log :: Reaches(d, log) ==> Reaches(c, log)
  {
    hide Reaches;
    var c2 := Next(c, CallPush);
    var c3 := Next(c2, Load);
    var c4 := Next(c3, Verify(true));
    var c5 := Next(c4, Store);
    d := Next(c5, CallExecute(true));
    forall log | Reaches(d, log)
      ensures Reaches(c, log)
    {
      ReachesBack(c5, CallExecute(true), log);
      ReachesBack(c4, Store, log);
      ReachesBack(c3, Verify(true), log);
      ReachesBack(c2, Load, log);
      ReachesBack(c, CallPush, log);
    }
  }

  lemma AppliedTooLate(c: Config) returns (log: seq<Event>)
    requires c.main == ExecuteStore && c.download.Heard?
    ensures Reaches(c, log) && !Safe(log)
  {
    hide Reaches;
    var c7 := Next(c, Store);
    var c8 := Next(c7, Settle);
    var c9 := Next(c8, Apply(false));
    log := c9.log;
    assert log[|log| - 1] == Applied && !Justified(log, |log| - 1);
    ReachesSelf(c9);
    ReachesBack(c8, Apply(false), log);
    ReachesBack(c7, Settle, log);
    ReachesBack(c, Store, log);
  }

  lemma UnsafeContinuation(c: Config, r: UpdateResult) returns (steps: seq<Step>)
    requires c.main == Ready && c.download.Heard?
    ensures var d := Next(c, CallComplete(r));
      AllEnabled(d, steps) && Orderly(d, steps) && !Safe(Run(d, steps).log)
  {
    hide Safe;
    var c0 := Next(c, CallComplete(r));
    var c1 := Next(c0, Store);
    var d := PushedAtOnce(c1);
    var log := AppliedTooLate(d);
    ReachesBack(c0, Store, log);
    steps :| AllEnabled(c0, steps) && Orderly(c0, steps) && Run(c0, steps).log == log;
  }

  lemma ReachesSelf(c: Config)
    ensures Reaches(c, c.log)
  {
    assert AllEnabled(c, []) && Orderly(c, []) && Run(c, []).log == c.log;
  }

  /** Reporting the end of an update between operations keeps every later applied update justified
      exactly when no download is between the two halves of its report. */
  lemma CompletionRace(c: Config, r: UpdateResult)
    requires Secured(c) && c.main == Ready
    ensures var d := Next(c, CallComplete(r));
      (forall steps :: AllEnabled(d, steps) && Orderly(d, steps) ==> Safe(Run(d, steps).log))
      <==> !c.download.Heard?
  {
    var d := Next(c, CallComplete(r));
    if c.download.Heard? {
      var steps := UnsafeContinuation(c, r);
    } else {
      SecuredStep(c, CallComplete(r));
      forall steps | AllEnabled(d, steps) && Orderly(d, steps)
        ensures Safe(Run(d, steps).log)
      {
        ApplySafety(d, steps);
      }
    }
  }

  // --- Results that fit the state ------------------------------------------

  /** A download or a package carries the result of a failed download: the state says so, or a
      package or a download has just been accepted and its fresh result overwritten. */
  predicate Tainted(c: Config) {
    && c.result == ConnectionLostDuringDownload
    && (c.state in {Downloading, Downloaded} || c.main in {PushVerify, PushStore, UriCallback})
  }

  /** The second store of a failed report comes late: a new download or package is already there, or
      the other thread has accepted one and is about to start or store it. */
  predicate Late(c: Config, s: Step) {
    && s.Settle? && c.download == FailedResult
    && (c.state in {Downloading, Downloaded} || c.main in {PushVerify, PushStore, UriCallback})
  }

  /** The application does not itself report a lost connection as the result of an update. */
  predicate Sane(s: Step) {
    s != CallComplete(ConnectionLostDuringDownload)
  }

  ghost predicate Clean(c: Config) {
    && Consistent(c) && !Tainted(c)
    && c.main != CompleteResult(ConnectionLostDuringDownload)
    && (c.main == UriStore || c.download.Heard? ==> c.result != ConnectionLostDuringDownload)
  }

  lemma CleanStep(c: Config, s: Step)
    requires Clean(c) && Enabled(c, s) && Sane(s)
    ensures Clean(Next(c, s)) <==> !Late(c, s)
    ensures Tainted(Next(c, s)) <==> Late(c, s)
  {
    ConsistentStep(c, s);
    if s.Store? {
      CleanStore(c);
    }
  }

  lemma CleanStore(c: Config)
    requires Clean(c) && Enabled(c, Store)
    ensures Clean(Next(c, Store))
  {
    ConsistentStep(c, Store);
  }

  predicate AllSane(steps: seq<Step>) {
    forall i :: 0 <= i < |steps| ==> Sane(steps[i])
  }

  /** No second store of a failed report in the run comes late. */
  predicate Punctual(c: Config, steps: seq<Step>)
    requires AllEnabled(c, steps)
    decreases |steps|
  {
    steps == [] || (!Late(c, steps[0]) && Punctual(Next(c, steps[0]), steps[1..]))
  }

  predicate NeverTainted(c: Config, steps: seq<Step>)
    requires AllEnabled(c, steps)
    decreases |steps|
  {
    !Tainted(c) && (steps == [] || NeverTainted(Next(c, steps[0]), steps[1..]))
  }

  /** Over every interleaving no download and no package carries the result of a failed download
      exactly when every failed report is punctual. */
  lemma {:induction false} ResultFitsRun(c: Config, steps: seq<Step>)
    requires Clean(c) && AllEnabled(c, steps) && AllSane(steps)
    ensures NeverTainted(c, steps) <==> Punctual(c, steps)
    ensures Punctual(c, steps) ==> Clean(Run(c, steps))
    decreases |steps|
  {
    if steps != [] {
      var d, rest := Next(c, steps[0]), steps[1..];
      CleanStep(c, steps[0]);
      assert forall i :: 0 <= i < |rest| ==> rest[i] == steps[i + 1];
      if !Late(c, steps[0]) {
        ResultFitsRun(d, rest);
      }
    }
  }

  lemma ResultFits(steps: seq<Step>)
    requires AllEnabled(Start, steps) && AllSane(steps)
    ensures NeverTainted(Start, steps) <==> Punctual(Start, steps)
  {
    ResultFitsRun(Start, steps);
  }

  /** The state alone shows the wrong result. */
  predicate Misreported(c: Config) {
    c.state in {Downloading, Downloaded} && c.result == ConnectionLostDuringDownload
  }

  /** Some run of at most two steps from a tainted configuration shows it in the state. */
  lemma TaintShows(c: Config) returns (steps: seq<Step>)
    requires Consistent(c) && Tainted(c) && !Active(c.download)
    ensures AllEnabled(c, steps) && AllSane(steps) && Punctual(c, steps) && Misreported(Run(c, steps))
  {
    if c.state in {Downloading, Downloaded} {
      steps := [];
    } else if c.main == PushStore {
      steps := [Store];
    } else if c.main == PushVerify {
      steps := [Verify(true), Store];
      assert steps[1..] == [Store];
    } else {
      steps := [Begin, Store];
      assert steps[1..] == [Store];
    }
  }

  /** The second half of a failed report is harmless to every run that goes on punctually exactly
      when it is not late itself. */
  lemma LateResultRace(c: Config)
    requires Clean(c) && c.download == FailedResult
    ensures var d := Next(c, Settle);
      (forall steps :: AllEnabled(d, steps) && AllSane(steps) && Punctual(d, steps) ==> !Misreported(Run(d, steps)))
      <==> !Late(c, Settle)
  {
    var d := Next(c, Settle);
    CleanStep(c, Settle);
    ConsistentStep(c, Settle);
    if Late(c, Settle) {
      var steps := TaintShows(d);
    } else {
      forall steps | AllEnabled(d, steps) && AllSane(steps) && Punctual(d, steps)
        ensures !Misreported(Run(d, steps))
      {
        ResultFitsRun(d, steps);
      }
    }
  }

  lemma RunCons(c: Config, s: Step, rest: seq<Step>)
    requires Enabled(c, s) && AllEnabled(Next(c, s), rest)
    ensures AllEnabled(c, [s] + rest) && Run(c, [s] + rest) == Run(Next(c, s), rest)
  {
    assert ([s] + rest)[1..] == rest;
  }

  /** A download that has reported its failure, seen before the second half of the report. */
  function Failing(): (c: Config)
    ensures c.main == Ready && c.state == Idle && c.download == FailedResult
  {
    Next(Next(Next(Next(Next(Start, CallWriteUri), Begin), Store), Finish(false)), Settle)
  }

  lemma ReachesFailing(rest: seq<Step>)
    requires AllEnabled(Failing(), rest)
    ensures var steps := [CallWriteUri] + ([Begin] + ([Store] + ([Finish(false)] + ([Settle] + rest))));
      AllEnabled(Start, steps) && Run(Start, steps) == Run(Failing(), rest)
  {
    hide Run, AllEnabled;
    var c1 := Next(Start, CallWriteUri);
    var c2 := Next(c1, Begin);
    var c3 := Next(c2, Store);
    var c4 := Next(c3, Finish(false));
    RunCons(c4, Settle, rest);
    RunCons(c3, Finish(false), [Settle] + rest);
    RunCons(c2, Store, [Finish(false)] + ([Settle] + rest));
    RunCons(c1, Begin, [Store] + ([Finish(false)] + ([Settle] + rest)));
    RunCons(Start, CallWriteUri, [Begin] + ([Store] + ([Finish(false)] + ([Settle] + rest))));
  }

  /** Such a run: the download fails, a package is pushed, and the result of the failure lands last;
      or it lands, just as late, while the state is still Idle and the package being verified. */
  lemma LateResultRun(early: bool)
    ensures var last := if early then [Settle, Verify(true), Store] else [Verify(true), Store, Settle];
      var tail := [Settle] + ([CallPush] + ([Load] + last));
      var steps := [CallWriteUri] + ([Begin] + ([Store] + ([Finish(false)] + tail)));
      && AllEnabled(Start, steps)
      && Run(Start, steps).state == Downloaded && Run(Start, steps).result == ConnectionLostDuringDownload
  {
    hide Run, AllEnabled;
    var last := if early then [Settle, Verify(true), Store] else [Verify(true), Store, Settle];
    var c := Next(Failing(), CallPush);
    assert Next(c, Load).main == PushVerify && Next(c, Load).download == FailedResult;
    LandsLast(Next(c, Load), early);
    RunCons(c, Load, last);
    RunCons(Failing(), CallPush, [Load] + last);
    ReachesFailing([CallPush] + ([Load] + last));
  }

  lemma LandsLast(c: Config, early: bool)
    requires c.main == PushVerify && c.download == FailedResult
    ensures var last := if early then [Settle, Verify(true), Store] else [Verify(true), Store, Settle];
      && AllEnabled(c, last)
      && Run(c, last).state == Downloaded && Run(c, last).result == ConnectionLostDuringDownload
  {
    if early {
      RunCons(Next(Next(c, Settle), Verify(true)), Store, []);
      RunCons(Next(c, Settle), Verify(true), [Store]);
      RunCons(c, Settle, [Verify(true)] + [Store]);
      assert [Settle, Verify(true), Store] == [Settle] + ([Verify(true)] + [Store]);
    } else {
      RunCons(Next(Next(c, Verify(true)), Store), Settle, []);
      RunCons(Next(c, Verify(true)), Store, [Settle]);
      RunCons(c, Verify(true), [Store] + [Settle]);
      assert [Verify(true), Store, Settle] == [Verify(true)] + ([Store] + [Settle]);
    }
  }
}
