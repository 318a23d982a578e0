/** The registration and reconnection machine of the client. Network outcomes and clock readings
    are inputs of each step; times are ticks. The callbacks that report an outage are a log, and so
    are the requests that address a location a server named. */
module Client {
  import opened Wrappers
  import opened MachineInts
  import opened Backoff

  const TICKS: int := 1_000_000_000

  datatype ClientState =
    | Idle | Registering | Registered | Updating | Deregistering | BootstrapPending | Bootstrapping | Failed

  datatype Registration = Registration(location: string, shortServerId: Uint16, registeredAt: int, expiresAt: int)

  datatype Cause = Expired | Disconnected

  /** The reconnection callbacks, with the steady-clock reading taken for each. */
  datatype Notice =
    | Lost(server: Uint16, cause: Cause, at: int)
    | Attempt(server: Uint16, number: Uint16, at: int)
    | Reconnected(server: Uint16)
    | GaveUp

  datatype Method = Post | Delete

  /** A request to the location of a registration: Post updates it, Delete ends it. */
  datatype Request = Request(kind: Method, server: Uint16, uri: string)

  /** What the client reads from its configuration and its Security and Server objects: the
      servers with credentials, the lifetime of each server, and the update threshold fraction. */
  datatype Config = Config(securities: set<Uint16>, lifetimes: map<Uint16, Uint32>,
                           thresholdNum: nat, thresholdDen: nat, reconnect: ReconnectionConfig)
  {
    ghost predicate Valid() { thresholdDen > 0 && reconnect.Valid() }

    /** The fraction is between 0 and 1. */
    ghost predicate Fraction() { Valid() && thresholdNum <= thresholdDen }

    /** How long before expiry, in seconds, an update is due. */
    function Margin(ssid: Uint16): int
      requires thresholdDen > 0 && ssid in lifetimes
    {
      lifetimes[ssid] - (lifetimes[ssid] * thresholdNum) / thresholdDen
    }
  }

  datatype Core = Core(config: Config, state: ClientState,
                       registrations: map<Uint16, Registration>, connections: map<Uint16, bool>,
                       reconnecting: bool, attempts: Uint16, lostServer: Uint16, nextTime: int,
                       log: seq<Notice>, sent: seq<Request>)

  // --- Inputs --------------------------------------------------------------

  datatype Answer = NoAnswer(error: ErrorCode) | Answered(success: bool, location: string)

  /** A registration exchange: whether a connection can be made, what the server answers, and the
      two clock readings of a new registration. */
  datatype RegisterInput = RegisterInput(connects: bool, connectError: ErrorCode, answer: Answer,
                                         registeredAt: int, expiryFrom: int)

  /** An update exchange and the clock reading that follows it. */
  datatype UpdateInput = UpdateInput(succeeds: bool, at: int)

  /** One poll: the order in which the two containers are walked, the update outcomes, and the
      clock readings in the order they are taken. */
  datatype PollInput = PollInput(order: seq<Uint16>, connectionOrder: seq<Uint16>,
                                 updateAt: int, updates: Uint16 -> UpdateInput, healthAt: int,
                                 lostAt: int, dueAt: int, register: RegisterInput, failedAt: int)

  // --- Steps as functions --------------------------------------------------

  function Register(c: Core, ssid: Uint16, x: RegisterInput): (Result<()>, Core) {
    if ssid !in c.config.securities || ssid !in c.config.lifetimes then (Err(NotFound), c)
    else if ssid !in c.connections && !x.connects then (Err(x.connectError), c)
    else
      var d := c.(connections := if ssid in c.connections then c.connections else c.connections[ssid := true]);
      match x.answer
      case NoAnswer(e) => (Err(e), d.(state := Failed))
      case Answered(success, location) =>
        if !success || location == "" then (Err(BadRequest), d.(state := Failed))
        else
          var reg := Registration(location, ssid, x.registeredAt, x.expiryFrom + c.config.lifetimes[ssid] * TICKS);
          (Ok(()), d.(registrations := d.registrations[ssid := reg], state := Registered))
  }

  lemma RegisterKeeps(c: Core, ssid: Uint16, x: RegisterInput)
    ensures var d := Register(c, ssid, x).1;
      && d.config == c.config && d.log == c.log && d.reconnecting == c.reconnecting
      && d.attempts == c.attempts && d.lostServer == c.lostServer && d.nextTime == c.nextTime
  {
  }

  function Update(c: Core, ssid: Uint16, x: UpdateInput): (Result<()>, Core) {
    if ssid !in c.registrations then (Err(NotFound), c)
    else if ssid !in c.connections then (Err(InvalidState), c)
    else
      var d := c.(sent := c.sent + [Request(Post, ssid, c.registrations[ssid].location)], state := Registered);
      if !x.succeeds then (Err(BadRequest), d)
      else (Ok(()), d.(registrations := c.registrations[ssid := Extended(c, ssid, x)]))
  }

  /** A registration after a successful update. */
  function Extended(c: Core, ssid: Uint16, x: UpdateInput): Registration
    requires ssid in c.registrations
  {
    if ssid in c.config.lifetimes
    then c.registrations[ssid].(expiresAt := x.at + c.config.lifetimes[ssid] * TICKS)
    else c.registrations[ssid]
  }

  function Deregister(c: Core, ssid: Uint16): Core {
    if ssid !in c.registrations then c
    else
      var left := c.registrations - {ssid};
      var request := Request(Delete, ssid, c.registrations[ssid].location);
      c.(registrations := left, state := if left == map[] then Idle else Registered,
         sent := if ssid in c.connections then c.sent + [request] else c.sent)
  }

  function DeregisterAll(c: Core, order: seq<Uint16>): (d: Core)
    ensures d == c.(registrations := d.registrations, state := d.state, sent := d.sent)
    decreases |order|
  {
    if order == [] then c
    else Deregister(DeregisterAll(c, order[..|order| - 1]), order[|order| - 1])
  }

  /** Stopping deregisters everyone and drops all connections; reconnection is not touched. When
      called from a callback on the event thread it returns at once. */
  function Stop(c: Core, onEventThread: bool, order: seq<Uint16>): Core {
    if onEventThread then c
    else DeregisterAll(c, order).(registrations := map[], connections := map[], state := Idle)
  }

  /** An update is due once the time left is within the margin. */
  predicate UpdateDue(c: Core, ssid: Uint16, now: int)
    requires c.config.Valid()
  {
    && ssid in c.registrations && ssid in c.config.lifetimes
    && c.registrations[ssid].expiresAt - now <= c.config.Margin(ssid) * TICKS
  }

  function CheckOne(c: Core, ssid: Uint16, x: PollInput): Core
    requires c.config.Valid()
  {
    if UpdateDue(c, ssid, x.updateAt) then Update(c, ssid, x.updates(ssid)).1 else c
  }

  function CheckUpdates(c: Core, order: seq<Uint16>, x: PollInput): (d: Core)
    requires c.config.Valid()
    ensures d.config == c.config
    decreases |order|
  {
    if order == [] then c
    else CheckOne(CheckUpdates(c, order[..|order| - 1], x), order[|order| - 1], x)
  }

  function FirstExpired(c: Core, order: seq<Uint16>, now: int): Option<Uint16> {
    if order == [] then None
    else if order[0] in c.registrations && now > c.registrations[order[0]].expiresAt then Some(order[0])
    else FirstExpired(c, order[1..], now)
  }

  function FirstDisconnected(c: Core, order: seq<Uint16>): Option<Uint16> {
    if order == [] then None
    else if order[0] in c.connections && !c.connections[order[0]] then Some(order[0])
    else FirstDisconnected(c, order[1..])
  }

  function Lose(c: Core, ssid: Uint16, cause: Cause, now: int): Core {
    c.(reconnecting := true, state := Failed, attempts := 0, lostServer := ssid, nextTime := now,
       registrations := c.registrations - {ssid}, log := c.log + [Lost(ssid, cause, now)])
  }

  function CheckHealth(c: Core, x: PollInput): Core {
    if c.state != Registered || c.reconnecting then c
    else match FirstExpired(c, x.order, x.healthAt)
      case Some(ssid) => Lose(c, ssid, Expired, x.lostAt)
      case None =>
        match FirstDisconnected(c, x.connectionOrder)
        case Some(ssid) => Lose(c, ssid, Disconnected, x.lostAt)
        case None => c
  }

  function TryReconnect(c: Core, x: PollInput): Core
    requires c.config.Valid()
  {
    var cfg := c.config.reconnect;
    if !cfg.enabled then c.(reconnecting := false)
    else if cfg.maxRetries > 0 && c.attempts >= cfg.maxRetries then
      c.(reconnecting := false, log := c.log + [GaveUp])
    else
      var n: Uint16 := (c.attempts + 1) % TWO_TO_16;
      var d := c.(attempts := n, log := c.log + [Attempt(c.lostServer, n, x.dueAt)],
                  connections := c.connections - {c.lostServer});
      var (r, e) := Register(d, c.lostServer, x.register);
      if r.Ok? then e.(reconnecting := false, attempts := 0, log := e.log + [Reconnected(c.lostServer)])
      else e.(nextTime := x.failedAt + BackoffAfter(cfg, n) * TICKS)
  }

  function Reconnect(c: Core, x: PollInput): Core
    requires c.config.Valid()
  {
    if c.reconnecting && x.dueAt >= c.nextTime then TryReconnect(c, x) else c
  }

  function Poll(c: Core, x: PollInput): Core
    requires c.config.Valid()
  {
    var checked := CheckHealth(CheckUpdates(c, x.order, x), x);
    HealthKeepsConfig(CheckUpdates(c, x.order, x), x);
    Reconnect(checked, x)
  }

  lemma HealthKeepsConfig(c: Core, x: PollInput)
    ensures CheckHealth(c, x).config == c.config
  {
  }

  /** A poll walks each container once, in some order. */
  ghost predicate Walks(c: Core, x: PollInput) {
    && (forall s :: s in c.registrations <==> s in x.order)
    && (forall i, j :: 0 <= i < j < |x.order| ==> x.order[i] != x.order[j])
    && (forall s :: s in c.connections <==> s in x.connectionOrder)
  }

  // --- The client object ---------------------------------------------------

  class LwM2mClient {
    var config: Config
    var state: ClientState
    var registrations: map<Uint16, Registration>
    var connections: map<Uint16, bool>
    var reconnecting: bool
    var reconnectAttempts: Uint16
    var reconnectSsid: Uint16
    var nextReconnectTime: int
    var log: seq<Notice>
    var sent: seq<Request>

    function Now(): Core
      reads this
    {
      Core(config, state, registrations, connections, reconnecting, reconnectAttempts, reconnectSsid,
           nextReconnectTime, log, sent)
    }

    constructor (config: Config)
      ensures Now() == Core(config, Idle, map[], map[], false, 0, 0, 0, [], [])
    {
      this.config := config;
      state := Idle;
      registrations, connections := map[], map[];
      reconnecting, reconnectAttempts, reconnectSsid, nextReconnectTime := false, 0, 0, 0;
      log, sent := [], [];
    }

    method RegisterWithServer(ssid: Uint16, x: RegisterInput) returns (r: Result<()>)
      modifies this
      ensures (r, Now()) == Register(old(Now()), ssid, x)
    {
      if ssid !in config.securities {
        return Err(NotFound);
      }
      if ssid !in config.lifetimes {
        return Err(NotFound);
      }
      if ssid !in connections {
        if !x.connects {
          return Err(x.connectError);
        }
        connections := connections[ssid := true];
      }
      state := Registering;
      if x.answer.NoAnswer? {
        state := Failed;
        return Err(x.answer.error);
      }
      if !x.answer.success {
        state := Failed;
        return Err(BadRequest);
      }
      var location := x.answer.location;
      if location == "" {
        state := Failed;
        return Err(BadRequest);
      }
      var reg := Registration(location, ssid, x.registeredAt, x.expiryFrom + config.lifetimes[ssid] * TICKS);
      registrations := registrations[ssid := reg];
      state := Registered;
      r := Ok(());
    }

    method UpdateRegistration(ssid: Uint16, x: UpdateInput) returns (r: Result<()>)
      modifies this`state, this`registrations, this`sent
      ensures (r, Now()) == Update(old(Now()), ssid, x)
    {
      if ssid !in registrations {
        return Err(NotFound);
      }
      if ssid !in connections {
        return Err(InvalidState);
      }
      state := Updating;
      sent := sent + [Request(Post, ssid, registrations[ssid].location)];
      if !x.succeeds {
        state := Registered;
        return Err(BadRequest);
      }
      var reg := registrations[ssid];
      if ssid in config.lifetimes {
        reg := reg.(expiresAt := x.at + config.lifetimes[ssid] * TICKS);
      }
      registrations := registrations[ssid := reg];
      state := Registered;
      r := Ok(());
    }

    method DeregisterFrom(ssid: Uint16)
      modifies this`state, this`registrations, this`sent
      ensures Now() == Deregister(old(Now()), ssid)
    {
      if ssid !in registrations {
        return;
      }
      if ssid in connections {
        state := Deregistering;
        sent := sent + [Request(Delete, ssid, registrations[ssid].location)];
      }
      registrations := registrations - {ssid};
      state := if registrations == map[] then Idle else Registered;
    }

    method StopClient(onEventThread: bool, ssids: seq<Uint16>)
      requires forall s :: s in registrations <==> s in ssids
      modifies this
      ensures Now() == Stop(old(Now()), onEventThread, ssids)
    {
      if onEventThread {
        return;
      }
      for k := 0 to |ssids|
        invariant Now() == DeregisterAll(old(Now()), ssids[..k])
      {
        assert ssids[..k + 1][..k] == ssids[..k];
        DeregisterFrom(ssids[k]);
      }
      assert ssids[..|ssids|] == ssids;
      connections := map[];
      registrations := map[];
      state := Idle;
    }

    method CheckRegistrationUpdates(x: PollInput)
      requires config.Valid()
      modifies this`state, this`registrations, this`sent
      ensures Now() == CheckUpdates(old(Now()), x.order, x)
    {
      for k := 0 to |x.order|
        invariant Now() == CheckUpdates(old(Now()), x.order[..k], x)
      {
        assert x.order[..k + 1][..k] == x.order[..k];
        var ssid := x.order[k];
        if ssid in registrations && ssid in config.lifetimes {
          var lifetime := config.lifetimes[ssid];
          var threshold := (lifetime * config.thresholdNum) / config.thresholdDen;
          var timeUntilExpiry := registrations[ssid].expiresAt - x.updateAt;
          if timeUntilExpiry <= (lifetime - threshold) * TICKS {
            var _ := UpdateRegistration(ssid, x.updates(ssid));
          }
        }
      }
      assert x.order[..|x.order|] == x.order;
    }

    method CheckConnectionHealth(x: PollInput)
      modifies this
      ensures Now() == CheckHealth(old(Now()), x)
    {
      if state != Registered || reconnecting {
        return;
      }
      for k := 0 to |x.order|
        invariant Now() == old(Now())
        invariant FirstExpired(Now(), x.order[k..], x.healthAt) == FirstExpired(Now(), x.order, x.healthAt)
      {
        assert x.order[k..][1..] == x.order[k + 1..];
        var ssid := x.order[k];
        if ssid in registrations && x.healthAt > registrations[ssid].expiresAt {
          HandleConnectionLost(ssid, Expired, x.lostAt);
          return;
        }
      }
      assert x.order[|x.order|..] == [];
      for k := 0 to |x.connectionOrder|
        invariant Now() == old(Now())
        invariant FirstDisconnected(Now(), x.connectionOrder[k..]) == FirstDisconnected(Now(), x.connectionOrder)
      {
        assert x.connectionOrder[k..][1..] == x.connectionOrder[k + 1..];
        var ssid := x.connectionOrder[k];
        if ssid in connections && !connections[ssid] {
          HandleConnectionLost(ssid, Disconnected, x.lostAt);
          return;
        }
      }
      assert x.connectionOrder[|x.connectionOrder|..] == [];
    }

    method HandleConnectionLost(ssid: Uint16, cause: Cause, now: int)
      modifies this
      ensures Now() == if old(reconnecting) then old(Now()) else Lose(old(Now()), ssid, cause, now)
    {
      if reconnecting {
        return;
      }
      reconnecting := true;
      state := Failed;
      reconnectAttempts := 0;
      reconnectSsid := ssid;
      nextReconnectTime := now;
      registrations := registrations - {ssid};
      log := log + [Lost(ssid, cause, now)];
    }

    method TryReconnectTo(x: PollInput)
      requires config.Valid()
      modifies this
      ensures Now() == TryReconnect(old(Now()), x)
    {
      hide Register, BackoffAfter;
      var ssid := reconnectSsid;
      if !config.reconnect.enabled {
        reconnecting := false;
        return;
      }
      if config.reconnect.maxRetries > 0 && reconnectAttempts >= config.reconnect.maxRetries {
        reconnecting := false;
        log := log + [GaveUp];
        return;
      }
      reconnectAttempts := (reconnectAttempts + 1) % TWO_TO_16;
      log := log + [Attempt(ssid, reconnectAttempts, x.dueAt)];
      connections := connections - {ssid};
      RegisterKeeps(Now(), ssid, x.register);
      var result := RegisterWithServer(ssid, x.register);
      if result.Ok? {
        reconnecting := false;
        reconnectAttempts := 0;
        log := log + [Reconnected(ssid)];
      } else {
        var backoff := CalculateBackoff(config.reconnect, reconnectAttempts);
        nextReconnectTime := x.failedAt + backoff * TICKS;
      }
    }

    method PollOnce(x: PollInput)
      requires config.Valid()
      modifies this
      ensures Now() == Poll(old(Now()), x)
    {
      CheckRegistrationUpdates(x);
      HealthKeepsConfig(Now(), x);
      CheckConnectionHealth(x);
      if reconnecting && x.dueAt >= nextReconnectTime {
        TryReconnectTo(x);
      }
    }
  }
}
