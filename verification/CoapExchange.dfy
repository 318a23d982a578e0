/** Request/response matching by token (RFC 7252, 5.3.1 and 5.3.2), including sends made from
    inside a send: while a request waits, the network may deliver replies in any order, late or
    twice, and may deliver requests whose handling sends in turn. */
module CoapExchange {
  import opened Wrappers
  import opened MachineInts
  import opened IntegerCodec
  import opened UriOptions

  datatype CoapResponse = CoapResponse(code: Byte, options: seq<CoapOption>, payload: seq<Byte>)

  datatype Reply = Reply(token: seq<Byte>, code: Byte, options: seq<CoapOption>, payload: seq<Byte>)

  /** How far a send gets before it waits. */
  datatype Start = NotConnected | NoPdu | TooLarge | SendFailed | Sent

  /** What happens while a send waits: a reply arrives, a handled request makes a send of its own,
      or one round of I/O ends and the waiting loop looks at its record. */
  datatype Event =
    | Arrive(reply: Reply)
    | Nested(start: Start, inner: seq<Event>)
    | RoundEnd

  datatype Pending = Pending(token: seq<Byte>, completed: bool, response: CoapResponse)

  /** The eight bytes of a token value. Only that they determine the value matters. */
  function TokenBytes(v: Uint64): seq<Byte> {
    Octets(v, 8)
  }

  lemma TokenBytesInjective(v: Uint64, w: Uint64)
    requires TokenBytes(v) == TokenBytes(w)
    ensures v == w
  {
    TokenValue(v);
    TokenValue(w);
  }

  lemma TokenValue(v: Uint64)
    ensures BigEndian(TokenBytes(v)) == v
  {
    OctetsValue(v, 8);
    PowerTable();
    QuotientUnique(v, TWO_TO_64, 0, v);
  }

  function Next(v: Uint64): Uint64 {
    (v + 1) % TWO_TO_64
  }

  function Fresh(v: Uint64): Pending {
    Pending(TokenBytes(v), false, CoapResponse(0, [], []))
  }

  const LOCATION_QUERY: Uint16 := 20
  const CONTENT_FORMAT: Uint16 := 12

  /** The options a response keeps. */
  function Kept(options: seq<CoapOption>): seq<CoapOption> {
    if options == [] then []
    else (if options[0].0 in {LOCATION_PATH, LOCATION_QUERY, CONTENT_FORMAT} then [options[0]] else [])
         + Kept(options[1..])
  }

  /** Recording a matching reply. A second one replaces the code but adds to the options. */
  function Absorb(p: Pending, r: Reply): Pending {
    Pending(p.token, true,
            CoapResponse(r.code, p.response.options + Kept(r.options),
                         if r.payload != [] then r.payload else p.response.payload))
  }

  function Hear(p: Pending, r: Reply): Pending {
    if r.token == p.token then Absorb(p, r) else p
  }

  // --- What a send does, as a function of what happens around it -----------

  /** A waiting send: its record, whether the client still points at it, the token counter. */
  datatype Wait = Wait(pending: Pending, attached: bool, counter: Uint64)

  function Waiting(w: Wait, events: seq<Event>): Wait
    decreases events, 0
  {
    if events == [] then w
    else match events[0]
      case Arrive(r) =>
        Waiting(if w.attached then w.(pending := Hear(w.pending, r)) else w, events[1..])
      case Nested(start, inner) =>
        Waiting(w.(attached := w.attached && !Detaches(start), counter := CounterAfter(w.counter, start, inner)),
                events[1..])
      case RoundEnd =>
        if w.pending.completed then w else Waiting(w, events[1..])
  }

  /** A send that gets as far as claiming the client's pointer clears it when it is done. */
  predicate Detaches(start: Start) {
    start.SendFailed? || start.Sent?
  }

  function CounterAfter(counter: Uint64, start: Start, inner: seq<Event>): Uint64
    decreases inner, 1
  {
    match start
    case NotConnected => counter
    case NoPdu => counter
    case TooLarge => Next(counter)
    case SendFailed => Next(counter)
    case Sent => Waiting(Wait(Fresh(Next(counter)), true, Next(counter)), inner).counter
  }

  function SendResult(counter: Uint64, start: Start, events: seq<Event>): Result<CoapResponse> {
    match start
    case NotConnected => Err(InvalidState)
    case NoPdu => Err(InternalServerError)
    case TooLarge => Err(InternalServerError)
    case SendFailed => Err(InternalServerError)
    case Sent =>
      var p := Waiting(Wait(Fresh(Next(counter)), true, Next(counter)), events).pending;
      if p.completed then Ok(p.response) else Err(Timeout)
  }

  // --- The client object ---------------------------------------------------

  class PendingResponse {
    var completed: bool
    var response: CoapResponse
    const token: seq<Byte>

    function State(): Pending
      reads this
    {
      Pending(token, completed, response)
    }

    constructor (token: seq<Byte>)
      ensures State() == Pending(token, false, CoapResponse(0, [], []))
    {
      this.token := token;
      completed := false;
      response := CoapResponse(0, [], []);
    }
  }

  class CoapClient {
    var nextToken: Uint64
    var currentResponse: PendingResponse?

    constructor ()
      ensures nextToken == 0 && currentResponse == null
    {
      nextToken := 0;
      currentResponse := null;
    }

    /** A reply that nobody waits for, or with another token, is dropped. */
    method ResponseHandler(received: Reply)
      modifies currentResponse
      ensures currentResponse != null ==>
        currentResponse.State() == Hear(old(currentResponse.State()), received)
    {
      if currentResponse == null {
        return;
      }
      var expected := currentResponse.token;
      if received.token != expected {
        return;
      }
      var options := currentResponse.response.options;
      for i := 0 to |received.options|
        invariant currentResponse.State() == old(currentResponse.State())
        invariant options + Kept(received.options[i..])
               == old(currentResponse.response.options) + Kept(received.options)
      {
        assert received.options[i..][1..] == received.options[i + 1..];
        if received.options[i].0 in {LOCATION_PATH, LOCATION_QUERY, CONTENT_FORMAT} {
          options := options + [received.options[i]];
        }
      }
      assert received.options[|received.options|..] == [];
      assert options + [] == options;
      var payload := currentResponse.response.payload;
      if received.payload != [] {
        payload := received.payload;
      }
      currentResponse.response := CoapResponse(received.code, options, payload);
      currentResponse.completed := true;
    }

    /** Sends a request and waits. `events` is what the network does meanwhile; running out of
        events is running out of time. */
    method Send(start: Start, events: seq<Event>) returns (r: Result<CoapResponse>)
      modifies this
      ensures r == SendResult(old(nextToken), start, events)
      ensures nextToken == CounterAfter(old(nextToken), start, events)
      ensures currentResponse == if Detaches(start) then null else old(currentResponse)
      decreases events
    {
      if start.NotConnected? {
        return Err(InvalidState);
      }
      if start.NoPdu? {
        return Err(InternalServerError);
      }
      nextToken := Next(nextToken);
      if start.TooLarge? {
        return Err(InternalServerError);
      }
      var pending := new PendingResponse(TokenBytes(nextToken));
      currentResponse := pending;
      if start.SendFailed? {
        currentResponse := null;
        return Err(InternalServerError);
      }
      ghost var whole := Waiting(Wait(pending.State(), true, nextToken), events);
      var i := 0;
      while i < |events|
        invariant 0 <= i <= |events|
        invariant currentResponse == pending || currentResponse == null
        invariant Waiting(Wait(pending.State(), currentResponse == pending, nextToken), events[i..]) == whole
        modifies this, pending
        decreases |events| - i
      {
        assert events[i..][0] == events[i] && events[i..][1..] == events[i + 1..];
        match events[i] {
          case Arrive(reply) => ResponseHandler(reply);
          case Nested(innerStart, inner) => var _ := Send(innerStart, inner);
          case RoundEnd =>
            if pending.completed {
              break;
            }
        }
        i := i + 1;
      }
      assert pending.State() == whole.pending && nextToken == whole.counter by {
        assert i == |events| ==> events[i..] == [];
      }
      currentResponse := null;
      r := if pending.completed then Ok(pending.response) else Err(Timeout);
    }

    /** I/O outside any send: replies are dropped, handled requests may send. */
    method Poll(events: seq<Event>)
      requires currentResponse == null
      modifies this
      ensures currentResponse == null
      ensures nextToken == Waiting(Wait(Fresh(0), false, old(nextToken)), events).counter
    {
      ghost var start := Wait(Fresh(0), false, nextToken);
      for i := 0 to |events|
        invariant currentResponse == null
        invariant Waiting(Wait(Fresh(0), false, nextToken), events[i..]) == Waiting(start, events)
      {
        assert events[i..][0] == events[i] && events[i..][1..] == events[i + 1..];
        match events[i] {
          case Arrive(reply) => ResponseHandler(reply);
          case Nested(innerStart, inner) => var _ := Send(innerStart, inner);
          case RoundEnd =>
        }
      }
      assert events[|events|..] == [];
    }
  }

  // --- Laws ----------------------------------------------------------------

  /** The replies a send can use: those with its token that arrive before another send claims the
      pointer and before the round in which the first of them arrived has ended. */
  function Heard(token: seq<Byte>, events: seq<Event>, completed: bool): seq<Reply> {
    if events == [] then []
    else match events[0]
      case Arrive(r) =>
        if r.token == token then [r] + Heard(token, events[1..], true) else Heard(token, events[1..], completed)
      case Nested(start, _) => if Detaches(start) then [] else Heard(token, events[1..], completed)
      case RoundEnd => if completed then [] else Heard(token, events[1..], completed)
  }

  function AbsorbAll(p: Pending, rs: seq<Reply>): Pending
    decreases |rs|
  {
    if rs == [] then p else AbsorbAll(Absorb(p, rs[0]), rs[1..])
  }

  lemma {:induction false} WaitingDetached(w: Wait, events: seq<Event>)
    requires !w.attached
    ensures Waiting(w, events).pending == w.pending
    decreases |events|
  {
    if events != [] {
      match events[0] {
        case Arrive(_) => WaitingDetached(w, events[1..]);
        case Nested(start, inner) =>
          WaitingDetached(w.(counter := CounterAfter(w.counter, start, inner)), events[1..]);
        case RoundEnd => WaitingDetached(w, events[1..]);
      }
    }
  }

  lemma {:induction false} WaitingHears(w: Wait, events: seq<Event>)
    requires w.attached
    ensures Waiting(w, events).pending == AbsorbAll(w.pending, Heard(w.pending.token, events, w.pending.completed))
    decreases |events|
  {
    if events != [] {
      var rest := events[1..];
      match events[0] {
        case Arrive(r) =>
          WaitingHears(w.(pending := Hear(w.pending, r)), rest);
          if r.token == w.pending.token {
            assert ([r] + Heard(w.pending.token, rest, true))[1..] == Heard(w.pending.token, rest, true);
          }
        case Nested(start, inner) =>
          var next := CounterAfter(w.counter, start, inner);
          if Detaches(start) {
            WaitingDetached(w.(attached := false, counter := next), rest);
          } else {
            WaitingHears(w.(counter := next), rest);
          }
        case RoundEnd =>
          if !w.pending.completed {
            WaitingHears(w, rest);
          }
      }
    }
  }

  /** All kept options of a list of replies, in order of arrival. */
  function KeptOfAll(rs: seq<Reply>): seq<CoapOption> {
    if rs == [] then [] else Kept(rs[0].options) + KeptOfAll(rs[1..])
  }

  /** The last payload that was not empty. */
  function LastPayload(rs: seq<Reply>): seq<Byte> {
    if rs == [] then []
    else if rs[|rs| - 1].payload != [] then rs[|rs| - 1].payload
    else LastPayload(rs[..|rs| - 1])
  }

  lemma {:induction false} LastPayloadCons(rs: seq<Reply>)
    requires |rs| > 1
    ensures LastPayload(rs) == if LastPayload(rs[1..]) != [] then LastPayload(rs[1..]) else rs[0].payload
  {
    var n := |rs|;
    if rs[n - 1].payload == [] {
      if n > 2 {
        LastPayloadCons(rs[..n - 1]);
        assert rs[..n - 1][1..] == rs[1..][..n - 2];
      } else {
        assert rs[..1] == [rs[0]] && rs[1..][..0] == [] && rs[..1][..0] == [];
      }
    }
  }

  lemma Associate<T>(a: seq<T>, b: seq<T>, c: seq<T>)
    ensures (a + b) + c == a + (b + c)
  {
  }

  lemma {:induction false} AbsorbedAll(p: Pending, rs: seq<Reply>)
    requires rs != []
    ensures var q := AbsorbAll(p, rs);
      && q.completed && q.token == p.token
      && q.response.code == rs[|rs| - 1].code
      && q.response.options == p.response.options + KeptOfAll(rs)
      && q.response.payload == if LastPayload(rs) != [] then LastPayload(rs) else p.response.payload
    decreases |rs|
  {
    if |rs| == 1 {
      assert KeptOfAll(rs) == Kept(rs[0].options) + [];
      assert rs[..0] == [];
    } else {
      LastPayloadCons(rs);
      var rest := rs[1..];
      AbsorbedAll(Absorb(p, rs[0]), rest);
      assert rest[|rest| - 1] == rs[|rs| - 1];
      Associate(p.response.options, Kept(rs[0].options), KeptOfAll(rest));
    }
  }

  lemma {:induction false} HeardToken(token: seq<Byte>, events: seq<Event>, completed: bool)
    ensures forall i :: 0 <= i < |Heard(token, events, completed)| ==> Heard(token, events, completed)[i].token == token
    ensures forall r :: r in Heard(token, events, completed) ==> Arrive(r) in events
  {
    if events != [] {
      HeardToken(token, events[1..], completed);
      HeardToken(token, events[1..], true);
    }
  }

  /** A reply with the given token. */
  predicate Matches(e: Event, token: seq<Byte>) {
    e.Arrive? && e.reply.token == token
  }

  /** A send from inside that takes over the pointer. */
  predicate TakesOver(e: Event) {
    e.Nested? && e.start in {SendFailed, Sent}
  }

  /** Event i is a reply with the token, and no send from inside took over before it. */
  ghost predicate Usable(token: seq<Byte>, events: seq<Event>, i: nat)
    requires i < |events|
  {
    Matches(events[i], token) && forall j :: 0 <= j < i ==> !TakesOver(events[j])
  }

  /** A round of I/O has ended between a first reply with the token and event i: the wait is over. */
  ghost predicate Over(token: seq<Byte>, events: seq<Event>, i: nat)
    requires i <= |events|
  {
    exists j, k :: 0 <= j < k < i && Matches(events[j], token) && events[k].RoundEnd?
  }

  /** The usable replies among the first n events that come before the wait is over. */
  ghost function Collected(token: seq<Byte>, events: seq<Event>, n: nat): seq<Reply>
    requires n <= |events|
  {
    if n == 0 then []
    else
      var usable := Usable(token, events, n - 1) && !Over(token, events, n - 1);
      Collected(token, events, n - 1) + (if usable then [events[n - 1].reply] else [])
  }

  /** Whether a wait that goes through these events still listens afterwards. */
  predicate Listening(token: seq<Byte>, events: seq<Event>, completed: bool) {
    if events == [] then true
    else match events[0]
      case Arrive(r) => Listening(token, events[1..], completed || r.token == token)
      case Nested(start, _) => !Detaches(start) && Listening(token, events[1..], completed)
      case RoundEnd => !completed && Listening(token, events[1..], completed)
  }

  lemma {:induction false} HeardSnoc(token: seq<Byte>, events: seq<Event>, e: Event, completed: bool)
    ensures Heard(token, events + [e], completed) == Heard(token, events, completed) +
      if Listening(token, events, completed) && Matches(e, token) then [e.reply] else []
  {
    if events == [] {
      assert events + [e] == [e];
      assert [e][1..] == [];
    } else {
      assert (events + [e])[1..] == events[1..] + [e];
      HeardSnoc(token, events[1..], e, completed);
      HeardSnoc(token, events[1..], e, true);
    }
  }

  lemma {:induction false} ListeningMeaning(token: seq<Byte>, events: seq<Event>, completed: bool)
    ensures Listening(token, events, completed) <==>
      && (forall j :: 0 <= j < |events| ==> !TakesOver(events[j]))
      && (completed ==> forall k :: 0 <= k < |events| ==> !events[k].RoundEnd?)
      && !Over(token, events, |events|)
  {
    if events != [] {
      var rest := events[1..];
      ListeningMeaning(token, rest, completed);
      ListeningMeaning(token, rest, true);
      assert forall j :: 0 < j < |events| ==> events[j] == rest[j - 1];
      OverCons(token, events);
    }
  }

  lemma OverCons(token: seq<Byte>, events: seq<Event>)
    requires events != []
    ensures Over(token, events, |events|) <==>
      || Over(token, events[1..], |events| - 1)
      || (Matches(events[0], token) && exists k :: 0 < k < |events| && events[k].RoundEnd?)
  {
    var rest := events[1..];
    if Over(token, rest, |rest|) {
      var j, k :| 0 <= j < k < |rest| && Matches(rest[j], token) && rest[k].RoundEnd?;
      assert Matches(events[j + 1], token) && events[k + 1].RoundEnd?;
    }
    if Over(token, events, |events|) {
      var j, k :| 0 <= j < k < |events| && Matches(events[j], token) && events[k].RoundEnd?;
      if j > 0 {
        assert Matches(rest[j - 1], token) && rest[k - 1].RoundEnd?;
      }
    }
  }

  lemma {:induction false} HeardCollected(token: seq<Byte>, events: seq<Event>, n: nat)
    requires n <= |events|
    ensures Heard(token, events[..n], false) == Collected(token, events, n)
    decreases n
  {
    if n > 0 {
      HeardCollected(token, events, n - 1);
      var front := events[..n - 1];
      assert events[..n] == front + [events[n - 1]];
      HeardSnoc(token, front, events[n - 1], false);
      ListeningMeaning(token, front, false);
      assert Over(token, front, n - 1) <==> Over(token, events, n - 1) by {
        assert forall j :: 0 <= j < n - 1 ==> front[j] == events[j];
      }
    }
  }

  /** Something is heard exactly when some reply is usable. */
  lemma {:induction false} HeardSome(token: seq<Byte>, events: seq<Event>, completed: bool)
    ensures !completed ==>
      (Heard(token, events, completed) != [] <==> exists i :: 0 <= i < |events| && Usable(token, events, i))
  {
    if events != [] && !completed {
      var rest := events[1..];
      HeardSome(token, rest, completed);
      if i :| 0 <= i < |events| && Usable(token, events, i) && i > 0 {
        assert rest[i - 1] == events[i];
        assert forall j :: 0 <= j < i - 1 ==> rest[j] == events[j + 1];
        assert Usable(token, rest, i - 1) && !TakesOver(events[0]);
      }
      if !TakesOver(events[0]) {
        if i :| 0 <= i < |rest| && Usable(token, rest, i) {
          assert forall j :: 0 < j < |events| ==> rest[j - 1] == events[j];
          assert Usable(token, events, i + 1);
        }
      }
      if Matches(events[0], token) {
        assert Usable(token, events, 0);
      }
    }
  }

  /** A send succeeds exactly when some reply with its own token arrives before another send takes
      over. What it returns is made of such replies and nothing else, up to the end of the round of
      the first of them, whatever was delayed, duplicated or reordered around them. */
  lemma TokenSafety(counter: Uint64, events: seq<Event>)
    ensures var own := TokenBytes(Next(counter));
      var heard := Heard(own, events, false);
      && (SendResult(counter, Sent, events).Ok? <==> heard != [])
      && (heard != [] <==> exists i :: 0 <= i < |events| && Usable(own, events, i))
      && (heard == [] ==> SendResult(counter, Sent, events) == Err(Timeout))
      && heard == Collected(own, events, |events|)
      && (forall r :: r in heard ==> r.token == own && Arrive(r) in events)
      && (heard != [] ==>
            && SendResult(counter, Sent, events).value.code == heard[|heard| - 1].code
            && SendResult(counter, Sent, events).value.options == KeptOfAll(heard)
            && SendResult(counter, Sent, events).value.payload == LastPayload(heard))
  {
    hide Collected, Usable;
    var p := Fresh(Next(counter));
    var heard := Heard(p.token, events, false);
    WaitingHears(Wait(p, true, Next(counter)), events);
    HeardToken(p.token, events, false);
    HeardSome(p.token, events, false);
    HeardCollected(p.token, events, |events|);
    assert events[..|events|] == events;
    if heard != [] {
      AbsorbedAll(p, heard);
      assert [] + KeptOfAll(heard) == KeptOfAll(heard);
    }
  }

  /** A send around a nested one that takes over, by sending or failing to, times out, even if its
      reply arrives afterwards, exactly when none had arrived before. */
  lemma NestedSendOrphans(counter: Uint64, before: seq<Event>, start: Start, inner: seq<Event>, after: seq<Event>)
    requires start in {SendFailed, Sent}
    ensures var own := TokenBytes(Next(counter));
      SendResult(counter, Sent, before + [Nested(start, inner)] + after) == Err(Timeout) <==>
      forall i :: 0 <= i < |before| ==> !Usable(own, before, i)
  {
    var own := TokenBytes(Next(counter));
    var all := before + [Nested(start, inner)] + after;
    TokenSafety(counter, all);
    assert all[|before|] == Nested(start, inner);
    assert forall i :: 0 <= i < |before| ==> all[i] == before[i];
    forall i | 0 <= i < |all|
      ensures Usable(own, all, i) <==> i < |before| && Usable(own, before, i)
    {
      assert i > |before| ==> TakesOver(all[|before|]);
    }
  }

  /** The location values of several replies together. */
  lemma {:induction false} LocationOfAll(rs: seq<Reply>)
    requires rs != []
    ensures var last := Values(rs[|rs| - 1].options, LOCATION_PATH);
      && |Values(KeptOfAll(rs), LOCATION_PATH)| >= |last|
      && (Values(KeptOfAll(rs), LOCATION_PATH) == last <==>
          forall i :: 0 <= i < |rs| - 1 ==> Values(rs[i].options, LOCATION_PATH) == [])
  {
    var first := Values(rs[0].options, LOCATION_PATH);
    ValuesConcat(Kept(rs[0].options), KeptOfAll(rs[1..]), LOCATION_PATH);
    KeptLocation(rs[0].options);
    assert Values(KeptOfAll(rs), LOCATION_PATH) == first + Values(KeptOfAll(rs[1..]), LOCATION_PATH);
    if |rs| == 1 {
      assert rs[1..] == [] && first + [] == first;
    } else {
      var rest := rs[1..];
      LocationOfAll(rest);
      assert forall i :: 0 < i < |rs| ==> rs[i] == rest[i - 1];
    }
  }

  /** The location read from a response is that of the last reply heard exactly when no reply heard
      before it named one: options add up where the code and payload are replaced. */
  lemma DuplicateRepeatsLocation(counter: Uint64, events: seq<Event>)
    requires SendResult(counter, Sent, events).Ok?
    ensures var heard := Heard(TokenBytes(Next(counter)), events, false);
      && heard != []
      && (Values(SendResult(counter, Sent, events).value.options, LOCATION_PATH)
            == Values(heard[|heard| - 1].options, LOCATION_PATH)
          <==> forall i :: 0 <= i < |heard| - 1 ==> Values(heard[i].options, LOCATION_PATH) == [])
  {
    TokenSafety(counter, events);
    LocationOfAll(Heard(TokenBytes(Next(counter)), events, false));
  }

  /** One duplicate in the round of the reply is enough: its location is then read twice. */
  lemma DuplicateInOneRound(counter: Uint64, r: Reply)
    requires r.token == TokenBytes(Next(counter))
    ensures SendResult(counter, Sent, [Arrive(r), Arrive(r), RoundEnd]).Ok?
    ensures Values(SendResult(counter, Sent, [Arrive(r), Arrive(r), RoundEnd]).value.options, LOCATION_PATH)
         == Values(r.options, LOCATION_PATH) + Values(r.options, LOCATION_PATH)
  {
    var events := [Arrive(r), Arrive(r), RoundEnd];
    var rest := [Arrive(r), RoundEnd];
    assert events[1..] == rest && rest[1..] == [RoundEnd];
    assert Heard(r.token, [RoundEnd], true) == [];
    assert Heard(r.token, rest, true) == [r] + [];
    assert Heard(r.token, events, false) == [r, r];
    TokenSafety(counter, events);
    assert [r, r][1..] == [r] && [r][1..] == [];
    assert KeptOfAll([r]) == Kept(r.options) + [];
    assert KeptOfAll([r, r]) == Kept(r.options) + Kept(r.options);
    ValuesConcat(Kept(r.options), Kept(r.options), LOCATION_PATH);
    KeptLocation(r.options);
  }

  lemma {:induction false} ValuesConcat(a: seq<CoapOption>, b: seq<CoapOption>, number: Uint16)
    ensures Values(a + b, number) == Values(a, number) + Values(b, number)
  {
    if a == [] {
      assert a + b == b;
    } else {
      assert (a + b)[1..] == a[1..] + b;
      ValuesConcat(a[1..], b, number);
    }
  }

  lemma {:induction false} KeptLocation(options: seq<CoapOption>)
    ensures Values(Kept(options), LOCATION_PATH) == Values(options, LOCATION_PATH)
  {
    if options != [] {
      KeptLocation(options[1..]);
      ValuesConcat(if options[0].0 in {LOCATION_PATH, LOCATION_QUERY, CONTENT_FORMAT} then [options[0]] else [],
                   Kept(options[1..]), LOCATION_PATH);
    }
  }

  /** Of the options of a reply exactly those that name a location or a format are kept, in order. */
  lemma {:induction false} KeptExactly(options: seq<CoapOption>, number: Uint16)
    ensures Values(Kept(options), number) ==
      if number in {8, 12, 20} then Values(options, number) else []
  {
    if options != [] {
      KeptExactly(options[1..], number);
      ValuesConcat(if options[0].0 in {LOCATION_PATH, LOCATION_QUERY, CONTENT_FORMAT} then [options[0]] else [],
                   Kept(options[1..]), number);
    }
  }

  /** Why a send fails: not connected, no reply in time, or the message could not be built or sent. */
  lemma SendFails(counter: Uint64, start: Start, events: seq<Event>)
    ensures var r, own := SendResult(counter, start, events), TokenBytes(Next(counter));
      && (r == Err(InvalidState) <==> start == NotConnected)
      && (r == Err(InternalServerError) <==> start in {NoPdu, TooLarge, SendFailed})
      && (r == Err(Timeout) <==> start == Sent && forall i :: 0 <= i < |events| ==> !Usable(own, events, i))
      && (r.Err? ==> r.error in {InvalidState, InternalServerError, Timeout})
  {
    if start == Sent {
      TokenSafety(counter, events);
    }
  }

  // --- Token values over a whole session -----------------------------------

  /** The token values drawn, in order, by the sends made while a send waits. */
  function TokensWhile(w: Wait, events: seq<Event>): seq<Uint64>
    decreases events, 0
  {
    if events == [] then []
    else match events[0]
      case Arrive(r) =>
        TokensWhile(if w.attached then w.(pending := Hear(w.pending, r)) else w, events[1..])
      case Nested(start, inner) =>
        TokensOf(w.counter, start, inner) +
        TokensWhile(w.(attached := w.attached && !Detaches(start), counter := CounterAfter(w.counter, start, inner)),
                    events[1..])
      case RoundEnd =>
        if w.pending.completed then [] else TokensWhile(w, events[1..])
  }

  /** The token values one send draws, its own first. */
  function TokensOf(counter: Uint64, start: Start, inner: seq<Event>): seq<Uint64>
    decreases inner, 1
  {
    match start
    case NotConnected => []
    case NoPdu => []
    case TooLarge => [Next(counter)]
    case SendFailed => [Next(counter)]
    case Sent => [Next(counter)] + TokensWhile(Wait(Fresh(Next(counter)), true, Next(counter)), inner)
  }

  type SendAttempt = (Start, seq<Event>)

  function SessionTokens(counter: Uint64, sends: seq<SendAttempt>): seq<Uint64>
    decreases |sends|
  {
    if sends == [] then [] else
    var (start, inner) := sends[0];
    TokensOf(counter, start, inner) + SessionTokens(CounterAfter(counter, start, inner), sends[1..])
  }

  /** Consecutive values above a counter that ends at the last of them. */
  ghost predicate Consecutive(counter: Uint64, tokens: seq<Uint64>, after: Uint64) {
    && (forall i :: 0 <= i < |tokens| ==> tokens[i] == (counter + 1 + i) % TWO_TO_64)
    && after == (counter + |tokens|) % TWO_TO_64
  }

  lemma ConsecutiveJoin(c0: Uint64, s: seq<Uint64>, c1: Uint64, t: seq<Uint64>, c2: Uint64)
    requires Consecutive(c0, s, c1) && Consecutive(c1, t, c2)
    ensures Consecutive(c0, s + t, c2)
  {
    forall i | |s| <= i < |s + t|
      ensures (s + t)[i] == (c0 + 1 + i) % TWO_TO_64
    {
      ModAdd(c0 + |s|, 1 + (i - |s|));
    }
    ModAdd(c0 + |s|, |t|);
  }

  lemma ModAdd(a: int, b: int)
    ensures (a % TWO_TO_64 + b) % TWO_TO_64 == (a + b) % TWO_TO_64
  {
  }

  lemma {:induction false} WhileConsecutive(w: Wait, events: seq<Event>)
    ensures Consecutive(w.counter, TokensWhile(w, events), Waiting(w, events).counter)
    decreases events, 0
  {
    if events != [] {
      var rest := events[1..];
      match events[0] {
        case Arrive(r) => WhileConsecutive(if w.attached then w.(pending := Hear(w.pending, r)) else w, rest);
        case Nested(start, inner) =>
          var mid := CounterAfter(w.counter, start, inner);
          var v := w.(attached := w.attached && !Detaches(start), counter := mid);
          SendConsecutive(w.counter, start, inner);
          WhileConsecutive(v, rest);
          ConsecutiveJoin(w.counter, TokensOf(w.counter, start, inner), mid,
                          TokensWhile(v, rest), Waiting(v, rest).counter);
        case RoundEnd =>
          if !w.pending.completed {
            WhileConsecutive(w, rest);
          }
      }
    }
  }

  lemma {:induction false} SendConsecutive(counter: Uint64, start: Start, inner: seq<Event>)
    ensures Consecutive(counter, TokensOf(counter, start, inner), CounterAfter(counter, start, inner))
    decreases inner, 1
  {
    if start.Sent? {
      var first := Next(counter);
      var w := Wait(Fresh(first), true, first);
      WhileConsecutive(w, inner);
      ConsecutiveJoin(counter, [first], first, TokensWhile(w, inner), Waiting(w, inner).counter);
    }
  }

  lemma {:induction false} SessionConsecutive(counter: Uint64, sends: seq<SendAttempt>)
    ensures exists after :: Consecutive(counter, SessionTokens(counter, sends), after)
    decreases |sends|
  {
    if sends == [] {
      assert Consecutive(counter, SessionTokens(counter, sends), counter);
    } else {
      var (start, inner) := sends[0];
      var mid := CounterAfter(counter, start, inner);
      SendConsecutive(counter, start, inner);
      SessionConsecutive(mid, sends[1..]);
      var after :| Consecutive(mid, SessionTokens(mid, sends[1..]), after);
      ConsecutiveJoin(counter, TokensOf(counter, start, inner), mid, SessionTokens(mid, sends[1..]), after);
      assert SessionTokens(counter, sends) == TokensOf(counter, start, inner) + SessionTokens(mid, sends[1..]);
      assert Consecutive(counter, SessionTokens(counter, sends), after);
    }
  }

  /** However sends nest, no two of up to 2^64 draws in a session give the same token, so no reply
      is usable by two of them. */
  lemma TokensDistinct(sends: seq<SendAttempt>, i: nat, j: nat)
    requires i < j < |SessionTokens(0, sends)| && j - i < TWO_TO_64
    ensures SessionTokens(0, sends)[i] != SessionTokens(0, sends)[j]
    ensures TokenBytes(SessionTokens(0, sends)[i]) != TokenBytes(SessionTokens(0, sends)[j])
  {
    hide SessionTokens, TokenBytes;
    var tokens := SessionTokens(0, sends);
    SessionConsecutive(0, sends);
    var after :| Consecutive(0, tokens, after);
    assert tokens[i] == (1 + i) % TWO_TO_64 && tokens[j] == (1 + j) % TWO_TO_64;
    ApartModulo(1 + i, 1 + j);
    if TokenBytes(tokens[i]) == TokenBytes(tokens[j]) {
      TokenBytesInjective(tokens[i], tokens[j]);
    }
  }

  lemma ApartModulo(a: nat, b: nat)
    requires a < b && b - a < TWO_TO_64
    ensures a % TWO_TO_64 != b % TWO_TO_64
  {
  }
}
