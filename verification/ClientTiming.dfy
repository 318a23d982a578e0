/** Expiry over whole runs: it is never missed, and timely polls keep a registration alive. */
module ClientTiming {
  import opened Wrappers
  import opened MachineInts
  import opened Backoff
  import opened Client
  import opened ClientRuns
  import IntegerCodec

  // --- Expiry is never missed ----------------------------------------------

  lemma MarginRange(config: Config, ssid: Uint16)
    requires config.Fraction() && ssid in config.lifetimes
    ensures 0 <= config.Margin(ssid) <= config.lifetimes[ssid]
  {
    var l, n, d := config.lifetimes[ssid], config.thresholdNum, config.thresholdDen;
    Product(l, n, d);
    IntegerCodec.Distribute(d, l, (l * n) / d);
    if (l * n) / d > l {
      IntegerCodec.AtLeastOnce(d, (l * n) / d - l);
    }
  }

  lemma Product(l: nat, n: nat, d: nat)
    requires n <= d
    ensures 0 <= l * n <= d * l
  {
    IntegerCodec.Distribute(l, n, d - n);
    assert l * (d - n) >= 0;
  }

  /** After the health check of a poll either a reconnection is under way or every registration
      left was unexpired when the update check began; the state the poll started in does not
      matter. The clock only moves forward, and every registered server has a connection and a
      known lifetime. */
  lemma ExpiryNotMissed(c: Core, x: PollInput)
    requires c.config.Fraction() && Walks(c, x)
    requires forall s :: s in c.registrations ==> s in c.connections && s in c.config.lifetimes
    requires x.updateAt <= x.healthAt && forall s :: x.updateAt <= x.updates(s).at
    ensures var d := CheckHealth(CheckUpdates(c, x.order, x), x);
      d.reconnecting || forall s :: s in d.registrations ==> x.updateAt <= d.registrations[s].expiresAt
  {
    UpdatesEffect(c, x.order, x);
    var d := CheckUpdates(c, x.order, x);
    FirstExpiredMeaning(d, x.order, x.healthAt);
    forall s | s in d.registrations && d.registrations[s].expiresAt < x.updateAt
      ensures d.state == Registered
    {
      MarginRange(c.config, s);
      assert s in x.order;
      var i :| 0 <= i < |x.order| && x.order[i] == s;
      assert Attempted(c, x.order[i], x);
    }
  }

  // --- Keep-alive ----------------------------------------------------------

  /** The whole margin of a server, in ticks. */
  function Slack(config: Config, ssid: Uint16): int
    requires config.thresholdDen > 0 && ssid in config.lifetimes
  {
    config.Margin(ssid) * TICKS
  }

  /** A run in which one server's updates succeed and polls come often enough: from one poll's
      update check (or the start) to the next poll's health check at most the margin passes. The
      lifetime and the threshold stay what they are. */
  ghost predicate Timely(c: Core, ssid: Uint16, since: int, steps: seq<Step>)
    requires c.config.Valid() && ssid in c.config.lifetimes
    decreases |steps|
  {
    steps == [] ||
    (&& Possible(c, steps[0]) && Allowed(c, steps[0])
     && TimelyStep(c, ssid, since, steps[0])
     && (ApplyKeepsConfig(c, steps[0]);
         Timely(Apply(c, steps[0]), ssid, Since(since, steps[0]), steps[1..])))
  }

  function Since(since: int, s: Step): int {
    if s.DoPoll? then s.poll.updateAt else since
  }

  ghost predicate TimelyStep(c: Core, ssid: Uint16, since: int, s: Step)
    requires c.config.Valid() && ssid in c.config.lifetimes
  {
    match s
    case DoPoll(x) =>
      && since <= x.updateAt <= x.updates(ssid).at
      && x.updates(ssid).succeeds
      && x.healthAt <= since + Slack(c.config, ssid)
      && x.updateAt <= x.register.expiryFrom
    case DoRegister(other, x) => other == ssid ==> since <= x.expiryFrom
    case DoUpdate(other, x) => other == ssid ==> since <= x.at
    case Configure(config) =>
      && config.Valid() && ssid in config.lifetimes && Slack(config, ssid) == Slack(c.config, ssid)
      && config.lifetimes[ssid] == c.config.lifetimes[ssid] && config.Fraction()
    case _ => true
  }

  /** Registered until at least a margin after the last update check. */
  ghost predicate Alive(c: Core, ssid: Uint16, since: int)
    requires c.config.Valid() && ssid in c.config.lifetimes
  {
    ssid in c.registrations ==> since + Slack(c.config, ssid) <= c.registrations[ssid].expiresAt
  }

  ghost predicate NeverExpired(log: seq<Notice>, ssid: Uint16) {
    forall n :: n in log ==> !(n.Lost? && n.server == ssid && n.cause == Expired)
  }

  lemma KeepAliveStep(c: Core, ssid: Uint16, since: int, s: Step)
    requires c.config.Fraction() && ssid in c.config.lifetimes && Settled(c)
    requires Possible(c, s) && Allowed(c, s) && TimelyStep(c, ssid, since, s)
    requires Alive(c, ssid, since) && NeverExpired(c.log, ssid)
    ensures var d := Apply(c, s);
      && d.config.Fraction() && ssid in d.config.lifetimes && Settled(d)
      && Alive(d, ssid, Since(since, s)) && NeverExpired(d.log, ssid)
  {
    SettledStep(c, s);
    ApplyKeepsConfig(c, s);
    match s {
      case DoPoll(x) => KeepAlivePoll(c, ssid, since, x);
      case DoRegister(other, x) => MarginRange(c.config, ssid);
      case DoUpdate(other, x) => MarginRange(c.config, ssid);
      case _ =>
    }
  }

  lemma KeepAlivePoll(c: Core, ssid: Uint16, since: int, x: PollInput)
    requires c.config.Fraction() && ssid in c.config.lifetimes && Settled(c)
    requires Walks(c, x) && TimelyStep(c, ssid, since, DoPoll(x))
    requires Alive(c, ssid, since) && NeverExpired(c.log, ssid)
    ensures Alive(Poll(c, x), ssid, x.updateAt) && NeverExpired(Poll(c, x).log, ssid)
  {
    MarginRange(c.config, ssid);
    UpdatesEffect(c, x.order, x);
    var u := CheckUpdates(c, x.order, x);
    assert Alive(u, ssid, x.updateAt);
    KeepAliveHealth(u, ssid, x);
    HealthKeepsConfig(u, x);
    KeepAliveReconnect(CheckHealth(u, x), ssid, x);
  }

  lemma KeepAliveHealth(u: Core, ssid: Uint16, x: PollInput)
    requires u.config.Fraction() && ssid in u.config.lifetimes
    requires Alive(u, ssid, x.updateAt) && NeverExpired(u.log, ssid)
    requires x.healthAt <= x.updateAt + Slack(u.config, ssid)
    ensures var h := CheckHealth(u, x);
      h.config == u.config && Alive(h, ssid, x.updateAt) && NeverExpired(h.log, ssid)
  {
    FirstExpiredMeaning(u, x.order, x.healthAt);
  }

  lemma KeepAliveReconnect(h: Core, ssid: Uint16, x: PollInput)
    requires h.config.Fraction() && ssid in h.config.lifetimes
    requires Alive(h, ssid, x.updateAt) && NeverExpired(h.log, ssid)
    requires x.updateAt <= x.register.expiryFrom
    ensures Alive(Reconnect(h, x), ssid, x.updateAt) && NeverExpired(Reconnect(h, x).log, ssid)
  {
    MarginRange(h.config, ssid);
  }

  /** Keep-alive: in a timely run the server's registration is never found expired. */
  lemma {:induction false} KeepAlive(c: Core, ssid: Uint16, since: int, steps: seq<Step>)
    requires c.config.Fraction() && ssid in c.config.lifetimes && Settled(c)
    requires Timely(c, ssid, since, steps)
    requires Alive(c, ssid, since) && NeverExpired(c.log, ssid)
    ensures AllPossible(c, steps)
    ensures NeverExpired(Run(c, steps).log, ssid)
    decreases |steps|
  {
    if steps != [] {
      KeepAliveStep(c, ssid, since, steps[0]);
      ApplyKeepsConfig(c, steps[0]);
      KeepAlive(Apply(c, steps[0]), ssid, Since(since, steps[0]), steps[1..]);
    }
  }
}
