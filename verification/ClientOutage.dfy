/** Outages over whole runs: how one starts, what the client reports while it lasts, and how it
    ends. */
module ClientOutage {
  import opened Wrappers
  import opened MachineInts
  import opened Backoff
  import opened Client
  import opened ClientRuns

  // --- How an outage starts ------------------------------------------------

  /** A health check starts an outage exactly when the client is Registered, none is under way,
      and some registration has expired or some connection is down; the connection of a server
      that was deregistered counts too. */
  lemma OutageStarts(c: Core, x: PollInput)
    requires Walks(c, x)
    ensures !c.reconnecting && CheckHealth(c, x).reconnecting <==>
      (&& c.state == Registered && !c.reconnecting
       && (|| (exists s :: s in c.registrations && x.healthAt > c.registrations[s].expiresAt)
           || (exists s :: s in c.connections && !c.connections[s])))
  {
    FirstExpiredMeaning(c, x.order, x.healthAt);
    FirstDisconnectedMeaning(c, x.connectionOrder);
  }

  /** s is the first server in walking order whose registration has expired. */
  ghost predicate FirstLapsed(c: Core, s: Uint16, order: seq<Uint16>, now: int) {
    exists i :: 0 <= i < |order| && LapsedAt(c, s, order, now, i)
  }

  ghost predicate LapsedAt(c: Core, s: Uint16, order: seq<Uint16>, now: int, i: nat)
    requires i < |order|
  {
    && order[i] == s && s in c.registrations && now > c.registrations[s].expiresAt
    && forall j :: 0 <= j < i && order[j] in c.registrations ==> now <= c.registrations[order[j]].expiresAt
  }

  lemma {:induction false} FirstLapsedMeaning(c: Core, s: Uint16, order: seq<Uint16>, now: int)
    ensures FirstExpired(c, order, now) == Some(s) <==> FirstLapsed(c, s, order, now)
    decreases |order|
  {
    if order != [] {
      var rest := order[1..];
      FirstLapsedMeaning(c, s, rest, now);
      if i :| 0 <= i < |order| && LapsedAt(c, s, order, now, i) {
        if i > 0 {
          assert forall j :: 0 <= j < i - 1 ==> rest[j] == order[j + 1];
          assert LapsedAt(c, s, rest, now, i - 1);
        }
      }
      if order[0] in c.registrations && now > c.registrations[order[0]].expiresAt {
        assert order[0] == s ==> LapsedAt(c, s, order, now, 0);
      } else if i :| 0 <= i < |rest| && LapsedAt(c, s, rest, now, i) {
        assert forall j :: 0 < j < i + 1 ==> order[j] == rest[j - 1];
        assert LapsedAt(c, s, order, now, i + 1);
      }
    }
  }

  /** The health check finds this server to be lost, for this cause. */
  ghost predicate Finds(c: Core, x: PollInput, s: Uint16, cause: Cause) {
    && c.state == Registered && !c.reconnecting
    && match cause
       case Expired => FirstLapsed(c, s, x.order, x.healthAt)
       case Disconnected =>
         && (forall r :: r in c.registrations ==> x.healthAt <= c.registrations[r].expiresAt)
         && FirstDown(c, s, x.connectionOrder)
  }

  /** What the health check does: the registration of the server it finds goes, its connection
      stays, and an outage to it begins with no attempt made and the first one due at once; if it
      finds none nothing changes. */
  lemma LossReported(c: Core, x: PollInput)
    requires Walks(c, x)
    ensures forall s, cause :: Finds(c, x, s, cause) ==>
      CheckHealth(c, x) == Core(c.config, Failed, c.registrations - {s}, c.connections, true, 0, s, x.lostAt,
                                c.log + [Lost(s, cause, x.lostAt)], c.sent)
    ensures (forall s, cause :: !Finds(c, x, s, cause)) ==> CheckHealth(c, x) == c
  {
    hide FirstLapsed, FirstDown;
    FirstExpiredMeaning(c, x.order, x.healthAt);
    forall s: Uint16
      ensures FirstExpired(c, x.order, x.healthAt) == Some(s) <==> FirstLapsed(c, s, x.order, x.healthAt)
      ensures FirstDisconnected(c, x.connectionOrder) == Some(s) <==> FirstDown(c, s, x.connectionOrder)
    {
      FirstLapsedMeaning(c, s, x.order, x.healthAt);
      FirstDownMeaning(c, s, x.connectionOrder);
    }
    if c.state == Registered && !c.reconnecting {
      match FirstExpired(c, x.order, x.healthAt) {
        case Some(s) => assert Finds(c, x, s, Expired);
        case None =>
          match FirstDisconnected(c, x.connectionOrder) {
            case Some(s) => assert Finds(c, x, s, Disconnected);
            case None =>
          }
      }
    }
  }

  predicate RetriesLeft(c: Core) {
    c.config.reconnect.maxRetries == 0 || c.attempts < c.config.reconnect.maxRetries
  }

  /** A poll due at `dueAt` would try the lost server. */
  predicate Tries(c: Core, dueAt: int) {
    c.reconnecting && c.nextTime <= dueAt && c.config.reconnect.enabled && RetriesLeft(c)
  }

  /** s is the first server in walking order whose connection is down. */
  ghost predicate FirstDown(c: Core, s: Uint16, order: seq<Uint16>) {
    exists i :: 0 <= i < |order| && DownAt(c, s, order, i)
  }

  ghost predicate DownAt(c: Core, s: Uint16, order: seq<Uint16>, i: nat)
    requires i < |order|
  {
    order[i] == s && s in c.connections && !c.connections[s] && UpBefore(c, order, i)
  }

  ghost predicate UpBefore(c: Core, order: seq<Uint16>, i: nat)
    requires i <= |order|
  {
    forall j :: 0 <= j < i && order[j] in c.connections ==> c.connections[order[j]]
  }

  lemma {:induction false} FirstDownMeaning(c: Core, s: Uint16, order: seq<Uint16>)
    ensures FirstDisconnected(c, order) == Some(s) <==> FirstDown(c, s, order)
  {
    if order != [] {
      var rest := order[1..];
      FirstDownMeaning(c, s, rest);
      if i :| 0 <= i < |order| && DownAt(c, s, order, i) {
        if i > 0 {
          assert forall j :: 0 <= j < i - 1 ==> rest[j] == order[j + 1];
          assert DownAt(c, s, rest, i - 1);
        }
      }
      if order[0] in c.connections && !c.connections[order[0]] {
        assert order[0] == s ==> DownAt(c, s, order, 0);
      } else if i :| 0 <= i < |rest| && DownAt(c, s, rest, i) {
        assert forall j :: 0 < j < i + 1 ==> order[j] == rest[j - 1];
        assert DownAt(c, s, order, i + 1);
      }
    }
  }

  /** A poll with no outage under way finds this server, which is not registered, to be the one
      lost: the update check leaves the client Registered and every registration current, and the
      first connection that is down is this server's. */
  ghost predicate Picks(c: Core, s: Uint16, x: PollInput)
    requires c.config.Valid()
  {
    && (c.state == Registered || AnyAttempted(c, x.order, x))
    && (forall r :: r in c.registrations ==> x.healthAt <= Checked(c, r, x).expiresAt)
    && FirstDown(c, s, x.connectionOrder)
  }

  lemma LosesUnregistered(c: Core, s: Uint16, x: PollInput)
    requires c.config.Valid() && Walks(c, x) && s !in c.registrations
    ensures var h := CheckHealth(CheckUpdates(c, x.order, x), x);
      && s !in h.registrations && h.config == c.config
      && (h.reconnecting && h.lostServer == s <==>
          if c.reconnecting then c.lostServer == s else Picks(c, s, x))
      && (c.reconnecting ==> h.nextTime == c.nextTime && h.attempts == c.attempts)
      && (!c.reconnecting && h.reconnecting ==> h.nextTime == x.lostAt && h.attempts == 0)
  {
    hide UpdateDue, Update, FirstDown;
    var u := CheckUpdates(c, x.order, x);
    UpdatesEffect(c, x.order, x);
    FirstExpiredMeaning(u, x.order, x.healthAt);
    FirstDownMeaning(c, s, x.connectionOrder);
    SameLinks(c, u, x.connectionOrder);
    assert forall r :: r in c.registrations ==> u.registrations[r] == Checked(c, r, x);
  }

  lemma {:induction false} SameLinks(c: Core, u: Core, order: seq<Uint16>)
    requires c.connections == u.connections
    ensures FirstDisconnected(c, order) == FirstDisconnected(u, order)
  {
    if order != [] {
      SameLinks(c, u, order[1..]);
    }
  }

  lemma ReconnectRegisters(h: Core, s: Uint16, x: PollInput)
    requires h.config.Valid() && s !in h.registrations
    ensures s in Reconnect(h, x).registrations <==>
      && h.lostServer == s && Tries(h, x.dueAt)
      && Configured(h.config, s) && x.register.connects && Answers(x.register)
  {
    hide BackoffAfter;
  }

  /** A step brings back a server that is not registered: the application registers it, or a poll
      tries it, as the server an outage is about or as the one this poll finds lost, and it can be
      reached and answers. */
  ghost predicate Returns(c: Core, s: Uint16, step: Step)
    requires c.config.Valid()
  {
    match step
    case DoRegister(ssid, x) => ssid == s && Registers(c, s, x)
    case DoPoll(x) =>
      && (if c.reconnecting then c.lostServer == s && Tries(c, x.dueAt)
          else Picks(c, s, x) && x.lostAt <= x.dueAt && c.config.reconnect.enabled)
      && Configured(c.config, s) && x.register.connects && Answers(x.register)
    case _ => false
  }

  /** Exactly such steps bring a server back that was deregistered, or never registered; the
      connection that deregistering keeps is what lets a poll find it lost. */
  lemma DeregisteredComesBack(c: Core, s: Uint16, step: Step)
    requires c.config.Valid() && Possible(c, step) && s !in c.registrations
    ensures s in Apply(c, step).registrations <==> Returns(c, s, step)
  {
    match step {
      case DoRegister(_, _) =>
      case DoPoll(x) =>
        hide CheckUpdates, CheckHealth, Reconnect, Picks;
        LosesUnregistered(c, s, x);
        HealthKeepsConfig(CheckUpdates(c, x.order, x), x);
        ReconnectRegisters(CheckHealth(CheckUpdates(c, x.order, x), x), s, x);
      case _ =>
    }
  }

  ghost predicate NeverReturns(c: Core, s: Uint16, steps: seq<Step>)
    requires AllPossible(c, steps)
    decreases |steps|
  {
    steps == [] || (!Returns(c, s, steps[0]) && NeverReturns(Apply(c, steps[0]), s, steps[1..]))
  }

  /** The server is not registered at any point of the run. */
  ghost predicate StaysAway(c: Core, s: Uint16, steps: seq<Step>)
    requires AllPossible(c, steps)
    decreases |steps|
  {
    s !in c.registrations && (steps == [] || StaysAway(Apply(c, steps[0]), s, steps[1..]))
  }

  /** Over a whole run a deregistered server stays so exactly when no step brings it back. */
  lemma {:induction false} DeregisteredRun(c: Core, s: Uint16, steps: seq<Step>)
    requires AllPossible(c, steps) && s !in c.registrations
    ensures StaysAway(c, s, steps) <==> NeverReturns(c, s, steps)
    decreases |steps|
  {
    if steps != [] {
      DeregisteredComesBack(c, s, steps[0]);
      if !Returns(c, s, steps[0]) {
        DeregisteredRun(Apply(c, steps[0]), s, steps[1..]);
      }
    }
  }

  /** Stopping does not end an outage: a poll of a client that was stopped registers somebody
      exactly when an outage was under way, the attempt is due, and the lost server is configured,
      reached and answers. */
  lemma StopKeepsOutage(c: Core, order: seq<Uint16>, x: PollInput)
    requires c.config.Valid() && Walks(Stop(c, false, order), x)
    ensures Poll(Stop(c, false, order), x).state == Registered <==>
      && Tries(c, x.dueAt) && Configured(c.config, c.lostServer)
      && x.register.connects && Answers(x.register)
  {
    hide BackoffAfter;
    UpdatesEffect(Stop(c, false, order), x.order, x);
  }

  /** An attempt leaves a registration without a connection, whose updates fail from then on,
      exactly when the lost server is registered, which only the application can have done, and is
      not configured any more or cannot be reached. */
  lemma RegisteredDuringOutage(c: Core, x: PollInput)
    requires Sound(c)
    ensures var d := Reconnect(c, x);
      && (Sound(d) <==> !(Tries(c, x.dueAt) && c.lostServer in c.registrations
                          && !(Configured(c.config, c.lostServer) && x.register.connects)))
      && (!Sound(d) ==> forall upd: UpdateInput :: Update(d, c.lostServer, upd).0 == Err(InvalidState))
  {
    hide BackoffAfter, Register;
    if Tries(c, x.dueAt) {
      RegisterLinks(Trying(c, x), c.lostServer, x.register);
    }
  }

  lemma RegisterLinks(c: Core, ssid: Uint16, x: RegisterInput)
    requires ssid !in c.connections
    ensures var (r, d) := Register(c, ssid, x);
      && d.config == c.config
      && (ssid in d.connections <==> Configured(c.config, ssid) && x.connects)
      && (forall s :: s in c.connections ==> s in d.connections)
      && d.registrations.Keys == c.registrations.Keys + (if r.Ok? then {ssid} else {})
      && (r.Ok? ==> ssid in d.connections)
      && d.state == if r.Ok? then Registered else if Configured(c.config, ssid) && x.connects then Failed else c.state
  {
  }

  // --- What is reported while it lasts -------------------------------------

  /** The grammar of the reports: an outage opens with a loss, continues with attempts numbered
      from one, to the lost server, none earlier than the delays before it allow and no more than
      the configured number, and closes with success after an attempt or by giving up after the
      last one. With reconnection disabled there are no attempts and nothing closes it but the
      next loss. */
  datatype Phase = Calm | Outage(server: Uint16, lostAt: int, tries: nat)

  function Follow(cfg: ReconnectionConfig, p: Phase, n: Notice): Option<Phase>
    requires cfg.Valid()
  {
    match (p, n)
    case (Calm, Lost(s, _, t)) => Some(Outage(s, t, 0))
    case (Outage(s, t, k), Attempt(server, number, at)) =>
      if && cfg.enabled && server == s && number == AttemptNumber(k + 1)
         && (cfg.maxRetries > 0 ==> k < cfg.maxRetries)
         && at >= t + TotalBackoff(cfg, k) * TICKS
      then Some(Outage(s, t, k + 1)) else None
    case (Outage(_, _, _), Lost(s, _, t)) => if cfg.enabled then None else Some(Outage(s, t, 0))
    case (Outage(s, _, k), Reconnected(server)) => if server == s && k > 0 then Some(Calm) else None
    case (Outage(_, _, k), GaveUp) => if cfg.maxRetries > 0 && k == cfg.maxRetries then Some(Calm) else None
    case _ => None
  }

  function Phases(cfg: ReconnectionConfig, log: seq<Notice>): Option<Phase>
    requires cfg.Valid()
    decreases |log|
  {
    if log == [] then Some(Calm)
    else match Phases(cfg, log[..|log| - 1])
      case None => None
      case Some(p) => Follow(cfg, p, log[|log| - 1])
  }

  lemma PhasesSnoc(cfg: ReconnectionConfig, log: seq<Notice>, from: nat, n: Notice)
    requires cfg.Valid() && from <= |log| && Phases(cfg, log[from..]).Some?
    ensures Phases(cfg, (log + [n])[from..]) == Follow(cfg, Phases(cfg, log[from..]).value, n)
  {
    assert (log + [n])[from..] == log[from..] + [n];
    assert (log[from..] + [n])[..|log| - from] == log[from..];
  }

  /** The client's reconnection fields agree with where its reports stand. */
  ghost predicate Agrees(c: Core, p: Phase)
    requires c.config.Valid()
  {
    var cfg := c.config.reconnect;
    match p
    case Calm => !c.reconnecting
    case Outage(s, t, k) =>
      && (cfg.enabled ==> c.reconnecting) && (!cfg.enabled ==> k == 0)
      && (c.reconnecting ==>
          && c.lostServer == s && c.attempts == AttemptNumber(k)
          && c.nextTime >= t + TotalBackoff(cfg, k) * TICKS
          && (cfg.maxRetries > 0 ==> k <= cfg.maxRetries))
  }

  /** The reports from position `from` on follow the grammar and agree with the fields. That holds
      to begin with wherever no outage is under way, from the end of the log. */
  ghost predicate Reporting(c: Core, cfg: ReconnectionConfig, from: nat) {
    && c.config.Valid() && c.config.reconnect == cfg && from <= |c.log|
    && Phases(cfg, c.log[from..]).Some? && Agrees(c, Phases(cfg, c.log[from..]).value)
  }

  lemma CalmReports(c: Core)
    requires c.config.Valid()
    ensures Reporting(c, c.config.reconnect, |c.log|) <==> !c.reconnecting
  {
    assert c.log[|c.log|..] == [];
  }

  /** A run with one reconnection configuration in which a failed attempt is noticed no earlier
      than it was started. */
  ghost predicate Steady(c: Core, cfg: ReconnectionConfig, steps: seq<Step>)
    requires AllPossible(c, steps)
    decreases |steps|
  {
    steps == [] ||
    (&& SteadyStep(cfg, steps[0])
     && Steady(Apply(c, steps[0]), cfg, steps[1..]))
  }

  ghost predicate SteadyStep(cfg: ReconnectionConfig, s: Step) {
    && (s.DoPoll? ==> s.poll.dueAt <= s.poll.failedAt)
    && (s.Configure? ==> s.config.reconnect == cfg)
  }

  lemma {:induction false} CheckReports(c: Core, order: seq<Uint16>, x: PollInput)
    requires c.config.Valid()
    ensures var d := CheckUpdates(c, order, x);
      && d.config == c.config && d.log == c.log && d.reconnecting == c.reconnecting
      && d.attempts == c.attempts && d.lostServer == c.lostServer && d.nextTime == c.nextTime
    decreases |order|
  {
    if order != [] {
      CheckReports(c, order[..|order| - 1], x);
    }
  }

  lemma LoseReports(c: Core, cfg: ReconnectionConfig, from: nat, ssid: Uint16, cause: Cause, now: int)
    requires Reporting(c, cfg, from) && !c.reconnecting
    ensures Reporting(Lose(c, ssid, cause, now), cfg, from)
  {
    PhasesSnoc(cfg, c.log, from, Lost(ssid, cause, now));
  }

  lemma NextTry(cfg: ReconnectionConfig, k: nat)
    requires cfg.Valid() && (cfg.maxRetries > 0 ==> k < cfg.maxRetries)
    ensures (AttemptNumber(k) + 1) % TWO_TO_16 == AttemptNumber(k + 1)
    ensures TotalBackoff(cfg, k + 1) == TotalBackoff(cfg, k) + BackoffAfter(cfg, AttemptNumber(k + 1))
  {
  }

  /** The report of an attempt. */
  lemma TryingReports(c: Core, cfg: ReconnectionConfig, from: nat, x: PollInput)
    requires Reporting(c, cfg, from) && Tries(c, x.dueAt)
    ensures var d, p := Trying(c, x), Phases(cfg, c.log[from..]).value;
      && p.Outage? && from <= |d.log| && d.attempts == AttemptNumber(p.tries + 1)
      && (cfg.maxRetries > 0 ==> p.tries < cfg.maxRetries)
      && c.nextTime >= p.lostAt + TotalBackoff(cfg, p.tries) * TICKS
      && Phases(cfg, d.log[from..]) == Some(Outage(c.lostServer, p.lostAt, p.tries + 1))
  {
    hide BackoffAfter, Phases, TotalBackoff;
    var k := Phases(cfg, c.log[from..]).value.tries;
    NextTry(cfg, k);
    PhasesSnoc(cfg, c.log, from, Attempt(c.lostServer, AttemptNumber(k + 1), x.dueAt));
  }

  lemma AttemptReports(c: Core, cfg: ReconnectionConfig, from: nat, x: PollInput)
    requires Reporting(c, cfg, from) && Tries(c, x.dueAt) && x.dueAt <= x.failedAt
    ensures Reporting(TryReconnect(c, x), cfg, from)
  {
    hide BackoffAfter, Register, Phases, TotalBackoff;
    var k := Phases(cfg, c.log[from..]).value.tries;
    var d := Trying(c, x);
    TryingReports(c, cfg, from, x);
    NextTry(cfg, k);
    RegisterKeeps(d, c.lostServer, x.register);
    PhasesSnoc(cfg, d.log, from, Reconnected(c.lostServer));
  }

  lemma ReconnectReports(c: Core, cfg: ReconnectionConfig, from: nat, x: PollInput)
    requires Reporting(c, cfg, from) && x.dueAt <= x.failedAt
    ensures Reporting(Reconnect(c, x), cfg, from)
  {
    if c.reconnecting && x.dueAt >= c.nextTime {
      if Tries(c, x.dueAt) {
        AttemptReports(c, cfg, from, x);
      } else if cfg.enabled {
        PhasesSnoc(cfg, c.log, from, GaveUp);
      }
    }
  }

  lemma StepReports(c: Core, cfg: ReconnectionConfig, from: nat, s: Step)
    requires Reporting(c, cfg, from) && Possible(c, s) && SteadyStep(cfg, s)
    ensures Reporting(Apply(c, s), cfg, from)
  {
    match s {
      case DoRegister(ssid, x) => RegisterKeeps(c, ssid, x);
      case DoPoll(x) =>
        hide Reconnect, Phases;
        var u := CheckUpdates(c, x.order, x);
        CheckReports(c, x.order, x);
        assert Reporting(u, cfg, from);
        HealthReports(u, cfg, from, x);
        var h := CheckHealth(u, x);
        ReconnectReports(h, cfg, from, x);
      case _ =>
    }
  }

  lemma HealthReports(u: Core, cfg: ReconnectionConfig, from: nat, x: PollInput)
    requires Reporting(u, cfg, from)
    ensures Reporting(CheckHealth(u, x), cfg, from)
  {
    if !u.reconnecting {
      forall ssid, cause
        ensures Reporting(Lose(u, ssid, cause, x.lostAt), cfg, from)
      {
        LoseReports(u, cfg, from, ssid, cause, x.lostAt);
      }
    }
  }

  /** In every run with one reconnection configuration the reports follow the grammar, and say
      whether an outage is under way. */
  lemma {:induction false} RunReports(c: Core, cfg: ReconnectionConfig, from: nat, steps: seq<Step>)
    requires Reporting(c, cfg, from) && AllPossible(c, steps) && Steady(c, cfg, steps)
    ensures Reporting(Run(c, steps), cfg, from)
    decreases |steps|
  {
    if steps != [] {
      StepReports(c, cfg, from, steps[0]);
      RunReports(Apply(c, steps[0]), cfg, from, steps[1..]);
    }
  }

  /** The log ends with a loss report followed by exactly the attempts 1 to k, each to the lost
      server, the i-th no earlier than the loss plus the i - 1 delays before it. */
  ghost predicate Shaped(cfg: ReconnectionConfig, log: seq<Notice>, start: nat, s: Uint16, t: int, k: nat)
    requires cfg.Valid()
  {
    && |log| == start + k + 1
    && Phases(cfg, log[..start]).Some? && (cfg.enabled ==> Phases(cfg, log[..start]) == Some(Calm))
    && log[start].Lost? && log[start].server == s && log[start].at == t
    && (cfg.maxRetries > 0 ==> k <= cfg.maxRetries)
    && forall j :: start < j < |log| ==> AttemptReport(cfg, log[j], j - start, s, t)
  }

  /** A report of the i-th attempt of an outage of server s that began at t. */
  predicate AttemptReport(cfg: ReconnectionConfig, n: Notice, i: nat, s: Uint16, t: int)
    requires cfg.Valid() && i > 0
  {
    && n.Attempt? && n.server == s && n.number == AttemptNumber(i)
    && n.at >= t + TotalBackoff(cfg, i - 1) * TICKS
  }

  /** What the grammar says about an outage after k attempts. */
  lemma {:induction false} OutageShape(cfg: ReconnectionConfig, log: seq<Notice>)
    requires cfg.Valid() && Phases(cfg, log).Some? && Phases(cfg, log).value.Outage?
    ensures var Outage(s, t, k) := Phases(cfg, log).value;
      k < |log| && Shaped(cfg, log, |log| - k - 1, s, t, k)
    decreases |log|
  {
    hide AttemptReport;
    var before, last := log[..|log| - 1], log[|log| - 1];
    assert log == before + [last];
    var p := Phases(cfg, before).value;
    assert Follow(cfg, p, last) == Phases(cfg, log);
    if p.Outage? && !last.Lost? {
      OutageShape(cfg, before);
      ReportOf(cfg, p, last);
      ShapeSnoc(cfg, before, last, |before| - p.tries - 1, p.server, p.lostAt, p.tries);
    }
  }

  lemma ReportOf(cfg: ReconnectionConfig, p: Phase, n: Notice)
    requires cfg.Valid() && p.Outage? && !n.Lost? && Follow(cfg, p, n).Some? && Follow(cfg, p, n).value.Outage?
    ensures AttemptReport(cfg, n, p.tries + 1, p.server, p.lostAt)
    ensures Follow(cfg, p, n) == Some(Outage(p.server, p.lostAt, p.tries + 1))
    ensures cfg.maxRetries > 0 ==> p.tries < cfg.maxRetries
  {
  }

  lemma ShapeSnoc(cfg: ReconnectionConfig, log: seq<Notice>, n: Notice, start: nat, s: Uint16, t: int, k: nat)
    requires cfg.Valid() && Shaped(cfg, log, start, s, t, k)
    requires AttemptReport(cfg, n, k + 1, s, t) && (cfg.maxRetries > 0 ==> k < cfg.maxRetries)
    ensures Shaped(cfg, log + [n], start, s, t, k + 1)
  {
    hide Phases, AttemptReport;
    assert (log + [n])[..start] == log[..start];
    forall j | start < j < |log| + 1
      ensures AttemptReport(cfg, (log + [n])[j], j - start, s, t)
    {
      assert (log + [n])[j] == if j < |log| then log[j] else n;
    }
  }

  /** With reconnection disabled the grammar leaves nothing but losses. */
  lemma {:induction false} DisabledTriesNothing(cfg: ReconnectionConfig, log: seq<Notice>)
    requires cfg.Valid() && !cfg.enabled && Phases(cfg, log).Some?
    ensures forall n :: n in log ==> n.Lost?
    ensures Phases(cfg, log).value.Outage? ==> Phases(cfg, log).value.tries == 0
    decreases |log|
  {
    if log != [] {
      var before := log[..|log| - 1];
      DisabledTriesNothing(cfg, before);
      assert log == before + [log[|log| - 1]];
    }
  }

  /** With the default configuration the client never gives up. */
  lemma {:induction false} DefaultNeverGivesUp(log: seq<Notice>)
    requires Phases(DEFAULT_RECONNECTION, log).Some?
    ensures GaveUp !in log
    decreases |log|
  {
    if log != [] {
      var before := log[..|log| - 1];
      DefaultNeverGivesUp(before);
      assert log == before + [log[|log| - 1]];
    }
  }

  // --- How an outage ends --------------------------------------------------

  /** A poll in which the reconnection timer has run out. */
  predicate Due(c: Core, s: Step) {
    s.DoPoll? && c.reconnecting && s.poll.dueAt >= c.nextTime
  }

  ghost function DuePolls(c: Core, steps: seq<Step>): nat
    requires AllPossible(c, steps)
    decreases |steps|
  {
    if steps == [] then 0
    else (if Due(c, steps[0]) then 1 else 0) + DuePolls(Apply(c, steps[0]), steps[1..])
  }

  /** The outage lasts through every step of the run. */
  ghost predicate Lasting(c: Core, steps: seq<Step>)
    requires AllPossible(c, steps)
    decreases |steps|
  {
    c.reconnecting && (steps == [] || Lasting(Apply(c, steps[0]), steps[1..]))
  }

  lemma OutagePoll(c: Core, cfg: ReconnectionConfig, from: nat, x: PollInput)
    requires Reporting(c, cfg, from) && c.reconnecting && cfg.maxRetries > 0 && Poll(c, x).reconnecting
    ensures var d := Poll(c, x);
      && d.lostServer == c.lostServer && d.attempts <= cfg.maxRetries
      && d.attempts == c.attempts + if x.dueAt >= c.nextTime then 1 else 0
  {
    hide BackoffAfter, Register, Phases, CheckUpdates;
    var u := CheckUpdates(c, x.order, x);
    CheckReports(c, x.order, x);
    assert CheckHealth(u, x) == u;
    AttemptsInRange(c, cfg, from);
    if x.dueAt >= u.nextTime {
      RegisterKeeps(Trying(u, x), u.lostServer, x.register);
    }
  }

  lemma AttemptsInRange(c: Core, cfg: ReconnectionConfig, from: nat)
    requires Reporting(c, cfg, from) && c.reconnecting && cfg.maxRetries > 0
    ensures c.attempts <= cfg.maxRetries
  {
    hide Phases;
  }

  /** With a bound on retries the remaining attempts measure the outage: every due poll uses one
      up or ends it, and no other step touches it. */
  lemma OutageStep(c: Core, cfg: ReconnectionConfig, from: nat, s: Step)
    requires Reporting(c, cfg, from) && Possible(c, s)
    requires c.reconnecting && cfg.maxRetries > 0 && Apply(c, s).reconnecting
    ensures Apply(c, s).lostServer == c.lostServer
    ensures Apply(c, s).attempts == c.attempts + if Due(c, s) then 1 else 0
    ensures Apply(c, s).attempts <= cfg.maxRetries
  {
    AttemptsInRange(c, cfg, from);
    match s {
      case DoRegister(ssid, x) => RegisterKeeps(c, ssid, x);
      case DoPoll(x) => OutagePoll(c, cfg, from, x);
      case _ =>
    }
  }

  /** So an outage survives at most as many due polls as there are attempts left, and with m
      retries allowed it is over after m + 1 due polls. */
  lemma {:induction false} OutageEnds(c: Core, cfg: ReconnectionConfig, from: nat, steps: seq<Step>)
    requires Reporting(c, cfg, from) && cfg.maxRetries > 0
    requires AllPossible(c, steps) && Steady(c, cfg, steps) && Lasting(c, steps)
    ensures c.attempts + DuePolls(c, steps) == Run(c, steps).attempts <= cfg.maxRetries
    ensures Run(c, steps).lostServer == c.lostServer
    decreases |steps|
  {
    if steps != [] {
      var d := Apply(c, steps[0]);
      assert Lasting(d, steps[1..]);
      OutageStep(c, cfg, from, steps[0]);
      StepReports(c, cfg, from, steps[0]);
      OutageEnds(d, cfg, from, steps[1..]);
    }
  }

  /** A step ends an outage exactly when it is a due poll and reconnection is disabled, no retry is
      left, or the attempt succeeds; which of the three it was decides what is reported and left. */
  lemma OutageCloses(c: Core, s: Step)
    requires c.config.Valid() && Possible(c, s) && c.reconnecting
    ensures !Apply(c, s).reconnecting <==>
      Due(c, s) && (Tries(c, s.poll.dueAt) ==>
        Configured(c.config, c.lostServer) && s.poll.register.connects && Answers(s.poll.register))
    ensures !Apply(c, s).reconnecting ==>
      var u, d, n := CheckUpdates(c, s.poll.order, s.poll), Apply(c, s), AttemptNumber(c.attempts + 1);
      if Tries(c, s.poll.dueAt) then
        && c.lostServer in d.registrations && d.state == Registered && d.attempts == 0
        && d.log == c.log + [Attempt(c.lostServer, n, s.poll.dueAt), Reconnected(c.lostServer)]
      else d == u.(reconnecting := false, log := if c.config.reconnect.enabled then c.log + [GaveUp] else c.log)
  {
    match s {
      case DoRegister(ssid, x) => RegisterKeeps(c, ssid, x);
      case DoPoll(x) =>
        hide CheckUpdates, Reconnect, Register, BackoffAfter, TotalBackoff;
        var u := CheckUpdates(c, x.order, x);
        CheckReports(c, x.order, x);
        ReconnectCloses(u, x);
        assert Apply(c, s) == Reconnect(u, x);
      case _ =>
    }
  }

  lemma ReconnectCloses(u: Core, x: PollInput)
    requires u.config.Valid() && u.reconnecting
    ensures var d, n := Reconnect(u, x), AttemptNumber(u.attempts + 1);
      && (!d.reconnecting <==> u.nextTime <= x.dueAt && (Tries(u, x.dueAt) ==>
            Configured(u.config, u.lostServer) && x.register.connects && Answers(x.register)))
      && (!d.reconnecting && Tries(u, x.dueAt) ==>
            && u.lostServer in d.registrations && d.state == Registered && d.attempts == 0
            && d.log == u.log + [Attempt(u.lostServer, n, x.dueAt), Reconnected(u.lostServer)])
      && (!d.reconnecting && !Tries(u, x.dueAt) ==>
            d == u.(reconnecting := false, log := if u.config.reconnect.enabled then u.log + [GaveUp] else u.log))
  {
    hide BackoffAfter;
    var tried := Trying(u, x);
    RegisterKeeps(tried, u.lostServer, x.register);
    assert (u.log + [Attempt(u.lostServer, AttemptNumber(u.attempts + 1), x.dueAt)]) + [Reconnected(u.lostServer)]
        == u.log + [Attempt(u.lostServer, AttemptNumber(u.attempts + 1), x.dueAt), Reconnected(u.lostServer)];
  }

  // --- When the next attempt is made ---------------------------------------

  /** No poll of the run reads the clock at or after t when it looks at the timer. */
  predicate PollsBefore(steps: seq<Step>, t: int) {
    forall i :: 0 <= i < |steps| && steps[i].DoPoll? ==> steps[i].poll.dueAt < t
  }

  lemma {:induction false} Waits(c: Core, steps: seq<Step>)
    requires AllPossible(c, steps) && c.reconnecting && PollsBefore(steps, c.nextTime)
    ensures var d := Run(c, steps);
      && d.reconnecting && d.nextTime == c.nextTime && d.attempts == c.attempts
      && d.lostServer == c.lostServer && d.log == c.log
    decreases |steps|
  {
    if steps != [] {
      var rest := steps[1..];
      StepWaits(c, steps[0]);
      assert forall i :: 0 <= i < |rest| ==> rest[i] == steps[i + 1];
      Waits(Apply(c, steps[0]), rest);
    }
  }

  lemma StepWaits(c: Core, s: Step)
    requires c.config.Valid() && Possible(c, s) && c.reconnecting && (s.DoPoll? ==> s.poll.dueAt < c.nextTime)
    ensures var d := Apply(c, s);
      && d.reconnecting && d.nextTime == c.nextTime && d.attempts == c.attempts
      && d.lostServer == c.lostServer && d.log == c.log
  {
    match s {
      case DoRegister(ssid, x) => RegisterKeeps(c, ssid, x);
      case DoPoll(x) => CheckReports(c, x.order, x);
      case _ =>
    }
  }

  /** After an attempt that fails, whatever the application does, the next attempt is made by the
      first poll that looks at its timer a whole delay after the failure was noticed, unless
      reconnection has been disabled or no retry is left; and by none before. */
  lemma RetrySchedule(h: Core, x: PollInput, between: seq<Step>, y: PollInput)
    requires h.config.Valid() && Tries(h, x.dueAt)
    requires !(Configured(h.config, h.lostServer) && x.register.connects && Answers(x.register))
    requires var c := Reconnect(h, x);
      var t := x.failedAt + BackoffAfter(h.config.reconnect, AttemptNumber(h.attempts + 1)) * TICKS;
      AllPossible(c, between) && PollsBefore(between, t)
      && Run(c, between).config.Valid() && Possible(Run(c, between), DoPoll(y))
    ensures var d := Run(Reconnect(h, x), between);
      var t := x.failedAt + BackoffAfter(h.config.reconnect, AttemptNumber(h.attempts + 1)) * TICKS;
      && d.reconnecting && d.lostServer == h.lostServer
      && (Attempting(d, Poll(d, y)) <==> y.dueAt >= t && d.config.reconnect.enabled && RetriesLeft(d))
  {
    hide Run, CheckUpdates, BackoffAfter, AllPossible;
    AttemptFails(h, x);
    var c := Reconnect(h, x);
    Waits(c, between);
    PollAttempts(Run(c, between), y);
  }

  /** The step from c to d reports an attempt to reach the lost server. */
  predicate Attempting(c: Core, d: Core) {
    |d.log| > |c.log| && d.log[|c.log|].Attempt? && d.log[|c.log|].server == c.lostServer
  }

  lemma AttemptFails(h: Core, x: PollInput)
    requires h.config.Valid() && Tries(h, x.dueAt)
    requires !(Configured(h.config, h.lostServer) && x.register.connects && Answers(x.register))
    ensures var c := Reconnect(h, x);
      && c.reconnecting && c.lostServer == h.lostServer && c.attempts == AttemptNumber(h.attempts + 1)
      && c.nextTime == x.failedAt + BackoffAfter(h.config.reconnect, c.attempts) * TICKS
  {
    hide BackoffAfter;
    RegisterKeeps(Trying(h, x), h.lostServer, x.register);
  }

  lemma PollAttempts(c: Core, y: PollInput)
    requires c.config.Valid() && c.reconnecting
    ensures Attempting(c, Poll(c, y)) <==> Tries(c, y.dueAt)
  {
    hide BackoffAfter, Register;
    var u := CheckUpdates(c, y.order, y);
    CheckReports(c, y.order, y);
    if Tries(u, y.dueAt) {
      RegisterKeeps(Trying(u, y), u.lostServer, y.register);
    }
  }
}
