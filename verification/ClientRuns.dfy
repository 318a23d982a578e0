/** Runs of the client, and what holds between its calls whatever the servers, the network and
    the application do. */
module ClientRuns {
  import opened Wrappers
  import opened MachineInts
  import opened Backoff
  import opened Client

  datatype Step =
    | DoRegister(ssid: Uint16, reg: RegisterInput)
    | DoUpdate(ssid: Uint16, upd: UpdateInput)
    | DoDeregister(ssid: Uint16)
    | DoPoll(poll: PollInput)
    | DoStop(onEventThread: bool, order: seq<Uint16>)
    | DoStart
    | LinkChange(ssid: Uint16, up: bool)
    | Configure(config: Config)

  function Apply(c: Core, s: Step): Core
    requires c.config.Valid()
  {
    match s
    case DoRegister(ssid, x) => Register(c, ssid, x).1
    case DoUpdate(ssid, x) => Update(c, ssid, x).1
    case DoDeregister(ssid) => Deregister(c, ssid)
    case DoPoll(x) => Poll(c, x)
    case DoStop(onEventThread, order) => Stop(c, onEventThread, order)
    case DoStart => c.(state := Idle)
    case LinkChange(ssid, up) =>
      if ssid in c.connections then c.(connections := c.connections[ssid := up]) else c
    case Configure(config) => c.(config := config)
  }

  /** A step that could happen: polling and stopping walk the containers, a configuration is well
      formed. */
  ghost predicate Possible(c: Core, s: Step)
    requires c.config.Valid()
  {
    match s
    case DoPoll(x) => Walks(c, x)
    case DoStop(_, order) =>
      && (forall s :: s in c.registrations <==> s in order)
      && (forall i, j :: 0 <= i < j < |order| ==> order[i] != order[j])
    case Configure(config) => config.Valid()
    case _ => true
  }

  lemma ApplyKeepsConfig(c: Core, s: Step)
    requires c.config.Valid() && Possible(c, s)
    ensures Apply(c, s).config == if s.Configure? then s.config else c.config
  {
    if s.DoPoll? {
      PollKeepsConfig(c, s.poll);
    }
  }

  lemma PollKeepsConfig(c: Core, x: PollInput)
    requires c.config.Valid()
    ensures Poll(c, x).config == c.config
  {
    hide Register, BackoffAfter;
    var u := CheckUpdates(c, x.order, x);
    HealthKeepsConfig(u, x);
    var h := CheckHealth(u, x);
    if h.reconnecting && x.dueAt >= h.nextTime {
      RegisterKeeps(Trying(h, x), h.lostServer, x.register);
    }
  }

  /** The client right after it has reported an attempt and dropped the old connection. */
  function Trying(c: Core, x: PollInput): Core {
    var n: Uint16 := (c.attempts + 1) % TWO_TO_16;
    c.(attempts := n, log := c.log + [Attempt(c.lostServer, n, x.dueAt)],
       connections := c.connections - {c.lostServer})
  }

  // --- Effect of the update check ------------------------------------------

  /** Whether a poll talks to a server about its registration. */
  predicate Attempted(c: Core, ssid: Uint16, x: PollInput)
    requires c.config.Valid()
  {
    UpdateDue(c, ssid, x.updateAt) && ssid in c.connections
  }

  /** What the update check makes of one registration. */
  function Checked(c: Core, ssid: Uint16, x: PollInput): Registration
    requires c.config.Valid() && ssid in c.registrations
  {
    if Attempted(c, ssid, x) && x.updates(ssid).succeeds then Extended(c, ssid, x.updates(ssid))
    else c.registrations[ssid]
  }

  ghost predicate AnyAttempted(c: Core, order: seq<Uint16>, x: PollInput)
    requires c.config.Valid()
  {
    exists i :: 0 <= i < |order| && Attempted(c, order[i], x)
  }

  /** d is c after the servers of `order` have been checked. */
  ghost predicate After(c: Core, order: seq<Uint16>, x: PollInput, d: Core)
    requires c.config.Valid()
  {
    && d == c.(registrations := d.registrations, state := d.state, sent := d.sent)
    && d.registrations.Keys == c.registrations.Keys
    && (forall s :: s in c.registrations ==>
          d.registrations[s] == if s in order then Checked(c, s, x) else c.registrations[s])
    && d.state == if AnyAttempted(c, order, x) then Registered else c.state
  }

  /** Walking the registrations treats each one once and independently of the others; if any
      update is attempted, even one that fails, the client ends up Registered. */
  lemma {:induction false} UpdatesEffect(c: Core, order: seq<Uint16>, x: PollInput)
    requires c.config.Valid()
    requires forall i, j :: 0 <= i < j < |order| ==> order[i] != order[j]
    ensures After(c, order, x, CheckUpdates(c, order, x))
    decreases |order|
  {
    if order != [] {
      var before, last := order[..|order| - 1], order[|order| - 1];
      UpdatesEffect(c, before, x);
      assert last !in before;
      assert order == before + [last];
      CheckOneEffect(c, before, last, x, CheckUpdates(c, before, x));
    }
  }

  lemma CheckOneEffect(c: Core, before: seq<Uint16>, last: Uint16, x: PollInput, d: Core)
    requires c.config.Valid() && After(c, before, x, d) && last !in before
    ensures After(c, before + [last], x, CheckOne(d, last, x))
  {
    AttemptedSnoc(c, before, last, x);
    assert UpdateDue(d, last, x.updateAt) == UpdateDue(c, last, x.updateAt);
  }

  lemma AttemptedSnoc(c: Core, before: seq<Uint16>, last: Uint16, x: PollInput)
    requires c.config.Valid()
    ensures AnyAttempted(c, before + [last], x) <==> AnyAttempted(c, before, x) || Attempted(c, last, x)
  {
    var order := before + [last];
    if AnyAttempted(c, before, x) {
      var i :| 0 <= i < |before| && Attempted(c, before[i], x);
      assert order[i] == before[i];
    }
    if Attempted(c, last, x) {
      assert order[|before|] == last;
    }
    if AnyAttempted(c, order, x) {
      var i :| 0 <= i < |order| && Attempted(c, order[i], x);
      assert i < |before| ==> order[i] == before[i];
    }
  }

  lemma {:induction false} FirstExpiredMeaning(c: Core, order: seq<Uint16>, now: int)
    ensures match FirstExpired(c, order, now)
      case Some(s) => s in order && s in c.registrations && now > c.registrations[s].expiresAt
      case None => forall s :: s in order && s in c.registrations ==> now <= c.registrations[s].expiresAt
  {
    if order != [] {
      FirstExpiredMeaning(c, order[1..], now);
    }
  }

  lemma {:induction false} FirstDisconnectedMeaning(c: Core, order: seq<Uint16>)
    ensures match FirstDisconnected(c, order)
      case Some(s) => s in order && s in c.connections && !c.connections[s]
      case None => forall s :: s in order && s in c.connections ==> c.connections[s]
  {
    if order != [] {
      FirstDisconnectedMeaning(c, order[1..]);
    }
  }

  // --- Between calls -------------------------------------------------------

  /** No transient state, Registered means somebody is registered, and every registration has a
      connection. */
  ghost predicate Sound(c: Core) {
    && c.config.Valid()
    && c.state in {Idle, Registered, Failed}
    && (c.state == Registered ==> c.registrations != map[])
    && (forall s :: s in c.registrations ==> s in c.connections)
  }

  /** What holds between calls: the above, and a server being reconnected is not registered. */
  ghost predicate Settled(c: Core) {
    Sound(c) && (c.reconnecting ==> c.lostServer !in c.registrations)
  }

  /** The server has credentials and a Server instance. */
  predicate Configured(config: Config, ssid: Uint16) {
    ssid in config.securities && ssid in config.lifetimes
  }

  /** The server accepts the registration and names a location. */
  predicate Answers(x: RegisterInput) {
    x.answer.Answered? && x.answer.success && x.answer.location != ""
  }

  /** A registration goes through. */
  predicate Registers(c: Core, ssid: Uint16, x: RegisterInput) {
    Configured(c.config, ssid) && (ssid in c.connections || x.connects) && Answers(x)
  }

  /** The application does not register the server that is being reconnected. */
  ghost predicate Allowed(c: Core, s: Step) {
    s.DoRegister? ==> !(c.reconnecting && s.ssid == c.lostServer)
  }

  /** Settled states stay settled at every step, except exactly when the application registers the
      lost server during its outage, the server is configured, a connection to it exists or can be
      made, and it accepts and names a location. */
  lemma SettledStep(c: Core, s: Step)
    requires Settled(c) && Possible(c, s)
    ensures Settled(Apply(c, s)) <==> Allowed(c, s) || !Registers(c, s.ssid, s.reg)
  {
    match s {
      case DoRegister(ssid, x) => SoundRegister(c, ssid, x);
      case DoUpdate(ssid, x) => SettledUpdate(c, ssid, x);
      case DoDeregister(_) =>
      case DoPoll(x) => SettledPoll(c, x);
      case _ =>
    }
  }

  lemma SoundRegister(c: Core, ssid: Uint16, x: RegisterInput)
    requires Sound(c)
    ensures var (r, d) := Register(c, ssid, x);
      && Sound(d) && d.config == c.config
      && d.reconnecting == c.reconnecting && d.lostServer == c.lostServer
      && (r.Ok? <==> Registers(c, ssid, x))
      && d.registrations.Keys == c.registrations.Keys + if r.Ok? then {ssid} else {}
  {
    var (r, d) := Register(c, ssid, x);
    if r.Ok? {
      assert ssid in d.registrations;
    }
  }

  lemma SettledUpdate(c: Core, ssid: Uint16, x: UpdateInput)
    requires Settled(c)
    ensures Settled(Update(c, ssid, x).1)
  {
    if ssid in c.registrations {
      assert ssid in Update(c, ssid, x).1.registrations;
    }
  }

  lemma SettledPoll(c: Core, x: PollInput)
    requires Settled(c) && Walks(c, x)
    ensures Settled(Poll(c, x))
  {
    UpdatesEffect(c, x.order, x);
    var u := CheckUpdates(c, x.order, x);
    assert Settled(u) by {
      if AnyAttempted(c, x.order, x) {
        var i :| 0 <= i < |x.order| && Attempted(c, x.order[i], x);
        assert x.order[i] in u.registrations;
      } else {
        assert u.registrations == map[] ==> c.registrations.Keys == {};
      }
    }
    assert Settled(CheckHealth(u, x));
    SettledReconnect(CheckHealth(u, x), x);
  }

  lemma SettledReconnect(c: Core, x: PollInput)
    requires Settled(c)
    ensures Settled(Reconnect(c, x))
  {
    hide Register, BackoffAfter;
    if c.reconnecting {
      SoundRegister(Trying(c, x), c.lostServer, x.register);
    }
  }

  ghost predicate AllPossible(c: Core, steps: seq<Step>)
    decreases |steps|
  {
    steps == [] ||
    (c.config.Valid() && Possible(c, steps[0]) && AllPossible(Apply(c, steps[0]), steps[1..]))
  }

  ghost predicate AllAllowed(c: Core, steps: seq<Step>)
    requires AllPossible(c, steps)
    decreases |steps|
  {
    steps == [] || (Allowed(c, steps[0]) && AllAllowed(Apply(c, steps[0]), steps[1..]))
  }

  ghost function Run(c: Core, steps: seq<Step>): Core
    requires AllPossible(c, steps)
    decreases |steps|
  {
    if steps == [] then c else Run(Apply(c, steps[0]), steps[1..])
  }

  lemma {:induction false} SettledRun(c: Core, steps: seq<Step>)
    requires Settled(c) && AllPossible(c, steps) && AllAllowed(c, steps)
    ensures Settled(Run(c, steps))
    decreases |steps|
  {
    if steps != [] {
      SettledStep(c, steps[0]);
      SettledRun(Apply(c, steps[0]), steps[1..]);
    }
  }
}
