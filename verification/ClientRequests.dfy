/** What each step of the client does to the servers: the requests it sends them, the registrations
    it makes and ends, and when they expire. */
module ClientRequests {
  import opened Wrappers
  import opened MachineInts
  import opened Backoff
  import opened Client
  import opened ClientRuns
  import opened ClientOutage
  import IntegerCodec

  // --- Requests sent -------------------------------------------------------

  /** A request to a registered server over its connection; otherwise none. */
  function Single(c: Core, kind: Method, ssid: Uint16): seq<Request> {
    if ssid in c.registrations && ssid in c.connections
    then [Request(kind, ssid, c.registrations[ssid].location)] else []
  }

  /** One update for each server whose update is attempted, in walking order. */
  function Posts(c: Core, order: seq<Uint16>, x: PollInput): seq<Request>
    requires c.config.Valid()
    decreases |order|
  {
    if order == [] then []
    else
      var last := order[|order| - 1];
      Posts(c, order[..|order| - 1], x) + if Attempted(c, last, x) then Single(c, Post, last) else []
  }

  /** One deregistration for each registered server with a connection, in walking order. */
  function Deletes(c: Core, order: seq<Uint16>): seq<Request>
    decreases |order|
  {
    if order == [] then [] else Deletes(c, order[..|order| - 1]) + Single(c, Delete, order[|order| - 1])
  }

  function Sends(c: Core, s: Step): seq<Request>
    requires c.config.Valid()
  {
    match s
    case DoUpdate(ssid, _) => Single(c, Post, ssid)
    case DoDeregister(ssid) => Single(c, Delete, ssid)
    case DoPoll(x) => Posts(c, x.order, x)
    case DoStop(onEventThread, order) => if onEventThread then [] else Deletes(c, order)
    case _ => []
  }

  lemma {:induction false} CheckSends(c: Core, order: seq<Uint16>, x: PollInput)
    requires c.config.Valid()
    requires forall i, j :: 0 <= i < j < |order| ==> order[i] != order[j]
    ensures CheckUpdates(c, order, x).sent == c.sent + Posts(c, order, x)
    decreases |order|
  {
    if order == [] {
      assert c.sent + [] == c.sent;
    } else {
      var before, last := order[..|order| - 1], order[|order| - 1];
      CheckSends(c, before, x);
      UpdatesEffect(c, before, x);
      var d := CheckUpdates(c, before, x);
      assert last !in before;
      CheckOneSends(c, d, last, x);
      assert c.sent + (Posts(c, before, x) + if Attempted(c, last, x) then Single(c, Post, last) else [])
          == (c.sent + Posts(c, before, x)) + if Attempted(c, last, x) then Single(c, Post, last) else [];
    }
  }

  lemma CheckOneSends(c: Core, d: Core, last: Uint16, x: PollInput)
    requires c.config.Valid() && d.config == c.config && d.connections == c.connections
    requires last in d.registrations <==> last in c.registrations
    requires last in c.registrations ==> d.registrations[last] == c.registrations[last]
    ensures CheckOne(d, last, x).sent == d.sent + if Attempted(c, last, x) then Single(c, Post, last) else []
  {
    assert d.sent + [] == d.sent;
  }

  lemma {:induction false} DeregisterAllSends(c: Core, order: seq<Uint16>)
    requires forall i, j :: 0 <= i < j < |order| ==> order[i] != order[j]
    ensures var d := DeregisterAll(c, order);
      && d.sent == c.sent + Deletes(c, order)
      && forall s :: (s in d.registrations <==> s in c.registrations && s !in order)
                     && (s in d.registrations ==> d.registrations[s] == c.registrations[s])
    decreases |order|
  {
    if order == [] {
      assert c.sent + [] == c.sent;
    } else {
      var before, last := order[..|order| - 1], order[|order| - 1];
      DeregisterAllSends(c, before);
      var d := DeregisterAll(c, before);
      assert order == before + [last] && last !in before;
      DeregisterEffect(d, last);
      assert (c.sent + Deletes(c, before)) + Single(c, Delete, last)
          == c.sent + (Deletes(c, before) + Single(c, Delete, last));
    }
  }

  lemma RestSendsNothing(u: Core, x: PollInput)
    requires u.config.Valid()
    ensures Reconnect(CheckHealth(u, x), x).sent == u.sent
  {
    hide BackoffAfter, FirstExpired, FirstDisconnected;
  }

  /** Every step sends exactly these requests: an update where the application or a poll updates a
      registration, a deregistration where the application ends one or stops, to the location
      stored, and nothing else. */
  lemma StepSends(c: Core, s: Step)
    requires c.config.Valid() && Possible(c, s)
    ensures Apply(c, s).sent == c.sent + Sends(c, s)
  {
    assert c.sent + [] == c.sent;
    match s {
      case DoPoll(x) =>
        CheckSends(c, x.order, x);
        RestSendsNothing(CheckUpdates(c, x.order, x), x);
      case DoStop(onEventThread, order) =>
        if !onEventThread {
          DeregisterAllSends(c, order);
        }
      case DoDeregister(ssid) => DeregisterEffect(c, ssid);
      case _ =>
    }
  }

  /** A poll updates every server due for it that has a connection, once, and no other. */
  lemma {:induction false} PostsOnce(c: Core, order: seq<Uint16>, x: PollInput, ssid: Uint16)
    requires c.config.Valid()
    requires forall i, j :: 0 <= i < j < |order| ==> order[i] != order[j]
    ensures To(Posts(c, order, x), ssid) ==
      if ssid in order && Attempted(c, ssid, x) then [Request(Post, ssid, c.registrations[ssid].location)] else []
    decreases |order|
  {
    if order != [] {
      var before, last := order[..|order| - 1], order[|order| - 1];
      PostsOnce(c, before, x, ssid);
      assert order == before + [last] && last !in before;
      ToConcat(Posts(c, before, x), if Attempted(c, last, x) then Single(c, Post, last) else [], ssid);
    }
  }

  lemma {:induction false} DeletesOnce(c: Core, order: seq<Uint16>, ssid: Uint16)
    requires forall i, j :: 0 <= i < j < |order| ==> order[i] != order[j]
    ensures To(Deletes(c, order), ssid) == if ssid in order then Single(c, Delete, ssid) else []
    decreases |order|
  {
    if order != [] {
      hide Single, To;
      var before, last := order[..|order| - 1], order[|order| - 1];
      DeletesOnce(c, before, ssid);
      assert order == before + [last] && last !in before;
      ToConcat(Deletes(c, before), Single(c, Delete, last), ssid);
      SingleTo(c, ssid);
    } else {
      assert To([], ssid) == [];
    }
  }

  /** The requests to one server. */
  function To(sent: seq<Request>, ssid: Uint16): seq<Request>
    decreases |sent|
  {
    if sent == [] then []
    else
      var last := sent[|sent| - 1];
      To(sent[..|sent| - 1], ssid) + if last.server == ssid then [last] else []
  }

  lemma {:induction false} ToConcat(a: seq<Request>, b: seq<Request>, ssid: Uint16)
    ensures To(a + b, ssid) == To(a, ssid) + To(b, ssid)
    decreases |b|
  {
    if b == [] {
      assert a + b == a;
    } else {
      var front := b[..|b| - 1];
      assert (a + b)[..|a + b| - 1] == a + front;
      ToConcat(a, front, ssid);
    }
  }

  /** What one step sends to one server: at most one request. */
  function SendsTo(c: Core, s: Step, ssid: Uint16): seq<Request>
    requires c.config.Valid()
  {
    match s
    case DoUpdate(server, _) => if server == ssid then Single(c, Post, ssid) else []
    case DoDeregister(server) => if server == ssid then Single(c, Delete, ssid) else []
    case DoPoll(x) => if Attempted(c, ssid, x) then Single(c, Post, ssid) else []
    case DoStop(onEventThread, _) => if onEventThread then [] else Single(c, Delete, ssid)
    case _ => []
  }

  lemma StepSendsTo(c: Core, s: Step, ssid: Uint16)
    requires c.config.Valid() && Possible(c, s)
    ensures To(Apply(c, s).sent, ssid) == To(c.sent, ssid) + SendsTo(c, s, ssid)
  {
    hide Apply, Attempted;
    StepSends(c, s);
    ToConcat(c.sent, Sends(c, s), ssid);
    match s {
      case DoPoll(x) =>
        PostsOnce(c, x.order, x, ssid);
        if Attempted(c, ssid, x) {
          AttemptedRegistered(c, ssid, x);
        }
      case DoStop(_, order) => DeletesOnce(c, order, ssid);
      case _ => SingleTo(c, ssid);
    }
  }

  lemma AttemptedRegistered(c: Core, ssid: Uint16, x: PollInput)
    requires c.config.Valid() && Attempted(c, ssid, x)
    ensures ssid in c.registrations && ssid in c.connections
  {
  }

  lemma SingleTo(c: Core, ssid: Uint16)
    ensures forall kind, server ::
      To(Single(c, kind, server), ssid) == if server == ssid then Single(c, kind, ssid) else []
  {
    forall kind, server
      ensures To(Single(c, kind, server), ssid) == if server == ssid then Single(c, kind, ssid) else []
    {
      if Single(c, kind, server) != [] {
        assert Single(c, kind, server)[..0] == [];
      }
    }
  }

  /** The application ends the registration of a server: it deregisters it, or stops the client. */
  predicate Ends(s: Step, ssid: Uint16) {
    s == DoDeregister(ssid) || (s.DoStop? && !s.onEventThread)
  }

  predicate OnlyUpdates(sent: seq<Request>, ssid: Uint16) {
    forall i :: 0 <= i < |sent| && sent[i].server == ssid ==> sent[i].kind == Post
  }

  lemma StepUpdates(c: Core, s: Step, ssid: Uint16)
    requires c.config.Valid() && Possible(c, s) && !Ends(s, ssid)
    ensures OnlyUpdates(Sends(c, s), ssid)
  {
    if s.DoPoll? {
      PostsUpdate(c, s.poll.order, s.poll, ssid);
    }
  }

  lemma {:induction false} PostsUpdate(c: Core, order: seq<Uint16>, x: PollInput, ssid: Uint16)
    requires c.config.Valid()
    ensures OnlyUpdates(Posts(c, order, x), ssid)
    decreases |order|
  {
    if order != [] {
      PostsUpdate(c, order[..|order| - 1], x, ssid);
    }
  }

  /** Over every run a request that ends the registration of a server comes from a step in which the
      application does: without one, everything sent to it is an update. */
  lemma {:induction false} DeletesHaveCause(c: Core, steps: seq<Step>, ssid: Uint16)
    requires AllPossible(c, steps) && forall i :: 0 <= i < |steps| ==> !Ends(steps[i], ssid)
    ensures c.sent <= Run(c, steps).sent
    ensures OnlyUpdates(Run(c, steps).sent[|c.sent|..], ssid)
    decreases |steps|
  {
    if steps != [] {
      var d, rest := Apply(c, steps[0]), steps[1..];
      StepSends(c, steps[0]);
      StepUpdates(c, steps[0], ssid);
      assert forall i :: 0 <= i < |rest| ==> rest[i] == steps[i + 1];
      DeletesHaveCause(d, rest, ssid);
      assert Run(c, steps).sent[|c.sent|..] == Sends(c, steps[0]) + Run(d, rest).sent[|d.sent|..];
    }
  }

  /** While a server stays away nothing is sent to it. */
  lemma {:induction false} AwaySilent(c: Core, ssid: Uint16, steps: seq<Step>)
    requires AllPossible(c, steps) && StaysAway(c, ssid, steps)
    ensures To(Run(c, steps).sent, ssid) == To(c.sent, ssid)
    decreases |steps|
  {
    if steps != [] {
      var d, rest := Apply(c, steps[0]), steps[1..];
      StepSendsTo(c, steps[0], ssid);
      assert To(d.sent, ssid) == To(c.sent, ssid) + [] by {
        if steps[0].DoPoll? && Attempted(c, ssid, steps[0].poll) {
          AttemptedRegistered(c, ssid, steps[0].poll);
        }
      }
      AwaySilent(d, ssid, rest);
    }
  }

  // --- Registrations ended -------------------------------------------------

  /** Deregistering ends that registration and no other, keeps every connection, and leaves the
      client Registered exactly when another registration is left. */
  lemma DeregisterEffect(c: Core, ssid: Uint16)
    ensures var d := Deregister(c, ssid);
      && ssid !in d.registrations
      && (forall s :: s != ssid ==> (s in d.registrations <==> s in c.registrations)
                                    && (s in c.registrations ==> d.registrations[s] == c.registrations[s]))
      && d == c.(registrations := d.registrations, state := d.state, sent := d.sent)
      && d.sent == c.sent + Single(c, Delete, ssid)
      && (ssid !in c.registrations ==> d.state == c.state)
      && (ssid in c.registrations ==> d.state in {Registered, Idle})
      && (ssid in c.registrations ==> (d.state == Registered <==> exists s :: s in c.registrations && s != ssid))
  {
    var d := Deregister(c, ssid);
    assert c.sent + [] == c.sent;
    if ssid in c.registrations {
      if s :| s in c.registrations && s != ssid {
        assert s in d.registrations;
      }
    } else {
      assert d.registrations == c.registrations;
    }
  }

  /** From any state a server that is deregistered stays so over a run exactly when no step of it
      brings the server back. */
  lemma DeregisteredForGood(c: Core, ssid: Uint16, steps: seq<Step>)
    requires c.config.Valid() && AllPossible(Apply(c, DoDeregister(ssid)), steps)
    ensures var d := Apply(c, DoDeregister(ssid));
      && (StaysAway(d, ssid, steps) <==> NeverReturns(d, ssid, steps))
      && (NeverReturns(d, ssid, steps) ==>
            To(Run(d, steps).sent, ssid) == To(c.sent, ssid) + Single(c, Delete, ssid))
  {
    var d := Apply(c, DoDeregister(ssid));
    DeregisterEffect(c, ssid);
    StepSendsTo(c, DoDeregister(ssid), ssid);
    DeregisteredRun(d, ssid, steps);
    if NeverReturns(d, ssid, steps) {
      AwaySilent(d, ssid, steps);
    }
  }

  /** Stopping outside the event thread ends every registration and connection; inside it does
      nothing. */
  lemma StopEffect(c: Core, onEventThread: bool, order: seq<Uint16>)
    ensures var d := Stop(c, onEventThread, order);
      && (onEventThread ==> d == c)
      && (!onEventThread ==>
            && d.state == Idle && (forall s :: s !in d.registrations && s !in d.connections)
            && d == c.(state := d.state, registrations := d.registrations, connections := d.connections,
                       sent := d.sent))
  {
  }

  /** Starting makes the client Idle and touches nothing else, a change of a link touches that
      connection, and a change of configuration the configuration. */
  lemma OtherSteps(c: Core, s: Step)
    requires c.config.Valid()
    ensures s.DoStart? ==> Apply(c, s) == c.(state := Idle)
    ensures s.Configure? ==> Apply(c, s) == c.(config := s.config)
    ensures s.LinkChange? ==>
      var d := Apply(c, s);
      && d == c.(connections := d.connections) && d.connections.Keys == c.connections.Keys
      && forall r :: r in c.connections ==> d.connections[r] == if r == s.ssid then s.up else c.connections[r]
  {
  }

  // --- Registrations made and extended -------------------------------------

  /** The outcome of a registration, by what the environment does. */
  lemma RegisterOutcome(c: Core, ssid: Uint16, x: RegisterInput)
    ensures var (r, d) := Register(c, ssid, x);
      && (r.Ok? <==> Registers(c, ssid, x))
      && (!Configured(c.config, ssid) ==> r == Err(NotFound) && d == c)
      && (Configured(c.config, ssid) && ssid !in c.connections && !x.connects ==> r == Err(x.connectError) && d == c)
      && (Configured(c.config, ssid) && (ssid in c.connections || x.connects) ==>
            && d.connections == (if ssid in c.connections then c.connections else c.connections[ssid := true])
            && d.state == (if r.Ok? then Registered else Failed)
            && (r.Err? ==> r.error == if x.answer.NoAnswer? then x.answer.error else BadRequest))
      && (r.Err? ==> d.registrations == c.registrations)
      && d == c.(registrations := d.registrations, connections := d.connections, state := d.state)
  {
  }

  /** The outcome of an update. */
  lemma UpdateOutcome(c: Core, ssid: Uint16, x: UpdateInput)
    ensures var (r, d) := Update(c, ssid, x);
      && (ssid !in c.registrations <==> r == Err(NotFound))
      && (ssid in c.registrations && ssid !in c.connections <==> r == Err(InvalidState))
      && (ssid in c.registrations && ssid in c.connections && !x.succeeds <==> r == Err(BadRequest))
      && (r == Err(NotFound) || r == Err(InvalidState) ==> d == c)
      && (r.Err? ==> d.registrations == c.registrations)
      && (ssid in c.registrations && ssid in c.connections ==> d.state == Registered)
      && d == c.(registrations := d.registrations, state := d.state, sent := d.sent)
  {
  }

  /** A poll registers the server of the outage under way after its checks. */
  predicate Reregisters(c: Core, ssid: Uint16, x: PollInput)
    requires c.config.Valid()
  {
    var h := CheckHealth(CheckUpdates(c, x.order, x), x);
    && h.lostServer == ssid && Tries(h, x.dueAt)
    && Configured(c.config, ssid) && x.register.connects && Answers(x.register)
  }

  function Extension(c: Core, ssid: Uint16, x: UpdateInput): Option<int> {
    if x.succeeds && ssid in c.config.lifetimes then Some(x.at + c.config.lifetimes[ssid] * TICKS) else None
  }

  function Made(c: Core, ssid: Uint16, x: RegisterInput): Registration
    requires Configured(c.config, ssid) && Answers(x)
  {
    Registration(x.answer.location, ssid, x.registeredAt, x.expiryFrom + c.config.lifetimes[ssid] * TICKS)
  }

  /** What a registration is after a step, exactly: one made in the step expires its lifetime after
      the reading taken for it, one extended in the step its lifetime after the reading that follows
      the exchange, and any other is what it was. */
  lemma RegistrationAfter(c: Core, s: Step, ssid: Uint16)
    requires c.config.Valid() && Possible(c, s) && ssid in Apply(c, s).registrations
    ensures var r := Apply(c, s).registrations[ssid];
      if s.DoRegister? && s.ssid == ssid && Registers(c, ssid, s.reg) then r == Made(c, ssid, s.reg)
      else if s.DoPoll? && Reregisters(c, ssid, s.poll) then r == Made(c, ssid, s.poll.register)
      else
        && ssid in c.registrations
        && var e :=
             if s.DoUpdate? && s.ssid == ssid && ssid in c.connections then Extension(c, ssid, s.upd)
             else if s.DoPoll? && Attempted(c, ssid, s.poll) then Extension(c, ssid, s.poll.updates(ssid))
             else None;
           r == if e.Some? then c.registrations[ssid].(expiresAt := e.value) else c.registrations[ssid]
  {
    match s {
      case DoDeregister(server) => DeregisterEffect(c, server);
      case DoPoll(x) => RegistrationAfterPoll(c, x, ssid);
      case _ =>
    }
  }

  lemma RegistrationAfterPoll(c: Core, x: PollInput, ssid: Uint16)
    requires c.config.Valid() && Walks(c, x) && ssid in Poll(c, x).registrations
    ensures var r := Poll(c, x).registrations[ssid];
      if Reregisters(c, ssid, x) then r == Made(c, ssid, x.register)
      else
        && ssid in c.registrations
        && var e := if Attempted(c, ssid, x) then Extension(c, ssid, x.updates(ssid)) else None;
           r == if e.Some? then c.registrations[ssid].(expiresAt := e.value) else c.registrations[ssid]
  {
    hide CheckUpdates, Reconnect;
    var u := CheckUpdates(c, x.order, x);
    UpdatesEffect(c, x.order, x);
    HealthKeepsConfig(u, x);
    HealthKeepsRegistration(u, x, ssid);
    ReconnectMakes(CheckHealth(u, x), x, ssid);
    if ssid in c.registrations {
      assert u.registrations[ssid] == Checked(c, ssid, x);
    }
  }

  lemma HealthKeepsRegistration(u: Core, x: PollInput, ssid: Uint16)
    ensures var h := CheckHealth(u, x);
      ssid in h.registrations ==> ssid in u.registrations && h.registrations[ssid] == u.registrations[ssid]
  {
  }

  lemma ReconnectMakes(h: Core, x: PollInput, ssid: Uint16)
    requires h.config.Valid()
    ensures var d := Reconnect(h, x);
      if && h.lostServer == ssid && Tries(h, x.dueAt)
         && Configured(h.config, ssid) && x.register.connects && Answers(x.register)
      then ssid in d.registrations && d.registrations[ssid] == Made(h, ssid, x.register)
      else (ssid in d.registrations <==> ssid in h.registrations)
           && (ssid in h.registrations ==> d.registrations[ssid] == h.registrations[ssid])
  {
    hide BackoffAfter;
  }

  /** An update is due exactly from the threshold on: q whole seconds after the reading the
      lifetime was counted from, where q is the threshold fraction of the lifetime cut to seconds. */
  lemma DueExactly(c: Core, ssid: Uint16, from: int, q: int, now: int)
    requires c.config.Valid() && ssid in c.registrations && ssid in c.config.lifetimes
    requires c.registrations[ssid].expiresAt == from + c.config.lifetimes[ssid] * TICKS
    requires q * c.config.thresholdDen <= c.config.lifetimes[ssid] * c.config.thresholdNum
    requires c.config.lifetimes[ssid] * c.config.thresholdNum < q * c.config.thresholdDen + c.config.thresholdDen
    ensures UpdateDue(c, ssid, now) <==> now - from >= q * TICKS
  {
    var l, d := c.config.lifetimes[ssid], c.config.thresholdDen;
    IntegerCodec.QuotientUnique(l * c.config.thresholdNum, d, q, l * c.config.thresholdNum - q * d);
    assert c.config.Margin(ssid) == l - q;
  }
}
