/** From the reply to a registration to the address of every later request: the exchange, the
    location it yields, the client's table of registrations, and the options of the next request. */
module Addressing {
  import opened Wrappers
  import opened MachineInts
  import opened Splitting
  import opened UriOptions
  import opened CoapExchange
  import opened Backoff
  import opened Client
  import opened ClientRuns

  predicate IsSuccess(code: Byte) {
    64 <= code < 128
  }

  /** What the client sees of the result of an exchange. */
  function AnswerOf(r: Result<CoapResponse>): Answer {
    match r
    case Err(e) => NoAnswer(e)
    case Ok(response) => Answered(IsSuccess(response.code), JoinedPath(Values(response.options, LOCATION_PATH)))
  }

  lemma {:induction false} GatherEmpty(values: seq<string>)
    ensures Gather(values) == "" <==> forall i :: 0 <= i < |values| ==> values[i] == ""
  {
    if values != [] {
      GatherEmpty(values[..|values| - 1]);
    }
  }

  /** The location values of everything a send heard, in order of arrival. */
  function HeardLocation(counter: Uint64, events: seq<Event>): seq<string> {
    Values(KeptOfAll(Heard(TokenBytes(Next(counter)), events, false)), LOCATION_PATH)
  }

  /** A registration succeeds exactly when the server is configured, a connection exists or can be
      made, a reply with the request's own token was heard, the last of them reports success, and
      at least one of them carries a Location-Path value that is not empty. */
  lemma RegistrationAnswered(c: Core, ssid: Uint16, x: RegisterInput, counter: Uint64, events: seq<Event>)
    requires x.answer == AnswerOf(SendResult(counter, Sent, events))
    ensures var heard := Heard(TokenBytes(Next(counter)), events, false);
      Register(c, ssid, x).0.Ok? <==>
      (&& Configured(c.config, ssid) && (ssid in c.connections || x.connects)
       && heard != [] && IsSuccess(heard[|heard| - 1].code)
       && exists i :: 0 <= i < |HeardLocation(counter, events)| && HeardLocation(counter, events)[i] != "")
  {
    TokenSafety(counter, events);
    GatherEmpty(HeardLocation(counter, events));
  }

  /** After it, updates and deregistration address the path the server named exactly when no value
      of it is empty or contains a slash or a question mark; with one reply heard, that path is
      the reply's own. */
  lemma RegisteredAddress(c: Core, ssid: Uint16, x: RegisterInput, counter: Uint64, events: seq<Event>)
    requires x.answer == AnswerOf(SendResult(counter, Sent, events))
    requires Register(c, ssid, x).0.Ok?
    ensures var named := HeardLocation(counter, events);
      && ssid in Register(c, ssid, x).1.registrations
      && (Pieces(PathPart(Register(c, ssid, x).1.registrations[ssid].location), '/') == named
          <==> forall i :: 0 <= i < |named| ==> Clean(named[i]))
    ensures var heard := Heard(TokenBytes(Next(counter)), events, false);
      |heard| == 1 ==> HeardLocation(counter, events) == Values(heard[0].options, LOCATION_PATH)
  {
    TokenSafety(counter, events);
    LocationRoundTrip(HeardLocation(counter, events));
    var heard := Heard(TokenBytes(Next(counter)), events, false);
    if |heard| == 1 {
      assert KeptOfAll(heard) == Kept(heard[0].options) + KeptOfAll(heard[1..]) == Kept(heard[0].options);
      KeptLocation(heard[0].options);
    }
  }

  // --- The address is kept -------------------------------------------------

  /** No report from position n on says that this server was lost. */
  ghost predicate NoLoss(log: seq<Notice>, n: nat, ssid: Uint16) {
    forall i :: n <= i < |log| ==> !(log[i].Lost? && log[i].server == ssid)
  }

  /** The server is not being reconnected, if it is registered it was in `was`, at the same
      location, and every request to it from number n on went to that location. */
  ghost predicate Addressed(was: map<Uint16, Registration>, c: Core, n: nat, ssid: Uint16) {
    && !(c.reconnecting && c.lostServer == ssid)
    && (ssid in c.registrations ==> ssid in was && c.registrations[ssid].location == was[ssid].location)
    && n <= |c.sent|
    && forall i :: n <= i < |c.sent| && c.sent[i].server == ssid ==>
         ssid in was && c.sent[i].uri == was[ssid].location
  }

  lemma {:induction false} CheckKeepsAddress(was: map<Uint16, Registration>, c: Core, order: seq<Uint16>,
                                             x: PollInput, n: nat, ssid: Uint16)
    requires c.config.Valid() && Addressed(was, c, n, ssid)
    ensures var u := CheckUpdates(c, order, x); Addressed(was, u, n, ssid) && u.log == c.log
    decreases |order|
  {
    if order != [] {
      CheckKeepsAddress(was, c, order[..|order| - 1], x, n, ssid);
    }
  }

  lemma {:induction false} DeregisterKeepsAddress(was: map<Uint16, Registration>, c: Core, order: seq<Uint16>,
                                                  n: nat, ssid: Uint16)
    requires Addressed(was, c, n, ssid)
    ensures Addressed(was, DeregisterAll(c, order), n, ssid)
    decreases |order|
  {
    if order != [] {
      DeregisterKeepsAddress(was, c, order[..|order| - 1], n, ssid);
    }
  }

  lemma {:induction false} CheckKeepsLog(c: Core, order: seq<Uint16>, x: PollInput)
    requires c.config.Valid()
    ensures CheckUpdates(c, order, x).log == c.log
    decreases |order|
  {
    if order != [] {
      CheckKeepsLog(c, order[..|order| - 1], x);
    }
  }

  lemma ReconnectGrows(h: Core, x: PollInput)
    requires h.config.Valid()
    ensures h.log <= Reconnect(h, x).log
  {
    hide BackoffAfter;
  }

  lemma ReconnectKeepsAddress(was: map<Uint16, Registration>, h: Core, x: PollInput, n: nat, ssid: Uint16)
    requires h.config.Valid() && Addressed(was, h, n, ssid)
    ensures Addressed(was, Reconnect(h, x), n, ssid)
  {
    hide BackoffAfter;
  }

  lemma StepGrows(c: Core, s: Step)
    requires c.config.Valid()
    ensures c.log <= Apply(c, s).log
  {
    if s.DoPoll? {
      hide Reconnect, CheckUpdates;
      var u := CheckUpdates(c, s.poll.order, s.poll);
      CheckKeepsLog(c, s.poll.order, s.poll);
      HealthKeepsConfig(u, s.poll);
      ReconnectGrows(CheckHealth(u, s.poll), s.poll);
    }
  }

  lemma StepKeepsAddress(was: map<Uint16, Registration>, c: Core, s: Step, n: nat, ssid: Uint16)
    requires c.config.Valid() && Addressed(was, c, n, ssid)
    requires !(s.DoRegister? && s.ssid == ssid) && NoLoss(Apply(c, s).log, |c.log|, ssid)
    ensures Addressed(was, Apply(c, s), n, ssid)
  {
    match s {
      case DoPoll(x) => PollKeepsAddress(was, c, x, n, ssid);
      case DoStop(_, order) => DeregisterKeepsAddress(was, c, order, n, ssid);
      case _ =>
    }
  }

  lemma PollKeepsAddress(was: map<Uint16, Registration>, c: Core, x: PollInput, n: nat, ssid: Uint16)
    requires c.config.Valid() && Addressed(was, c, n, ssid) && NoLoss(Poll(c, x).log, |c.log|, ssid)
    ensures Addressed(was, Poll(c, x), n, ssid)
  {
    hide Reconnect, CheckUpdates;
    var u := CheckUpdates(c, x.order, x);
    CheckKeepsAddress(was, c, x.order, x, n, ssid);
    HealthKeepsConfig(u, x);
    var h := CheckHealth(u, x);
    ReconnectGrows(h, x);
    assert |h.log| > |c.log| ==> h.log[|c.log|] == Poll(c, x).log[|c.log|];
    ReconnectKeepsAddress(was, h, x, n, ssid);
  }

  lemma {:induction false} RunGrows(c: Core, steps: seq<Step>)
    requires AllPossible(c, steps)
    ensures c.log <= Run(c, steps).log
    decreases |steps|
  {
    if steps != [] {
      StepGrows(c, steps[0]);
      RunGrows(Apply(c, steps[0]), steps[1..]);
    }
  }

  /** The application does not register this server during the run. */
  predicate NotRegistered(steps: seq<Step>, ssid: Uint16) {
    forall i :: 0 <= i < |steps| ==> !(steps[i].DoRegister? && steps[i].ssid == ssid)
  }

  lemma {:induction false} AddressKept(was: map<Uint16, Registration>, c: Core, steps: seq<Step>, n: nat, ssid: Uint16)
    requires AllPossible(c, steps) && Addressed(was, c, n, ssid)
    requires NotRegistered(steps, ssid) && NoLoss(Run(c, steps).log, |c.log|, ssid)
    ensures Addressed(was, Run(c, steps), n, ssid)
    decreases |steps|
  {
    if steps != [] {
      var d, rest, last := Apply(c, steps[0]), steps[1..], Run(c, steps).log;
      StepGrows(c, steps[0]);
      RunGrows(d, rest);
      assert forall i :: 0 <= i < |d.log| ==> d.log[i] == last[i];
      StepKeepsAddress(was, c, steps[0], n, ssid);
      assert forall i :: 0 <= i < |rest| ==> rest[i] == steps[i + 1];
      AddressKept(was, d, rest, n, ssid);
    }
  }

  /** Between the registration of a server and the next time the application registers it or the
      client loses it, every update and deregistration sent to it, by the application, by polls or
      by stopping, carries as Uri-Path the values the server named, exactly when none of them is
      empty or contains a slash or a question mark. */
  lemma RequestsAddressed(c: Core, ssid: Uint16, x: RegisterInput, counter: Uint64, events: seq<Event>,
                          steps: seq<Step>, i: nat)
    requires x.answer == AnswerOf(SendResult(counter, Sent, events))
    requires Register(c, ssid, x).0.Ok? && !(c.reconnecting && c.lostServer == ssid)
    requires var d := Register(c, ssid, x).1;
      && AllPossible(d, steps) && NotRegistered(steps, ssid) && NoLoss(Run(d, steps).log, |d.log|, ssid)
      && |d.sent| <= i < |Run(d, steps).sent| && Run(d, steps).sent[i].server == ssid
    ensures var named := HeardLocation(counter, events);
      Pieces(PathPart(Run(Register(c, ssid, x).1, steps).sent[i].uri), '/') == named
      <==> forall k :: 0 <= k < |named| ==> Clean(named[k])
  {
    hide Run, Pieces, PathPart, HeardLocation, AllPossible;
    var d := Register(c, ssid, x).1;
    RegisteredAddress(c, ssid, x, counter, events);
    AddressKept(d.registrations, d, steps, |d.sent|, ssid);
  }
}
