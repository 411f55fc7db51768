/** The client's half of the trust handshake, run against the gateway: the login form, the
    host-key dialog, and the retry that carries the confirmed fingerprint. Any number of the
    client's requests may be in flight, other clients use the same gateway, and connection
    attempts interleave as in module Trust. */
module Handshake {
  import opened Text
  import opened Trust

  /** What the connect route answers once an attempt has come to an end. */
  datatype Reply = Connected | VerifyHostKey(fingerprint: string) | ErrorReply

  /** `brokeDown` tells whether the opener failed after the connection was accepted and its key
      pinned: while it looked at the system or for the home directory. */
  function ReplyOf(a: Attempt, brokeDown: bool): Option<Reply> {
    match a.phase
    case Opened => Some(if brokeDown then ErrorReply else Connected)
    case Refused(UnknownKey) => if a.presented.Some? then Some(VerifyHostKey(a.presented.value)) else Some(ErrorReply)
    case Refused(Mismatch) => Some(ErrorReply)
    case Failed => Some(ErrorReply)
    case _ => None
  }

  /** A fingerprint the user was shown and accepted, for which target. */
  datatype Confirmation = Confirmation(host: string, port: nat, fingerprint: string)

  /** The state cells of the page; `session` is the attempt behind the open session, and
      `confirmed` records the user's confirmations. */
  datatype Client = Client(
    busy: bool,
    error: bool,
    hostKey: Option<string>,
    pending: Option<Request>,
    session: Option<nat>,
    inFlight: set<nat>,
    mine: set<nat>,
    confirmed: set<Confirmation>)

  datatype World = World(gateway: Gateway, client: Client)

  datatype Event =
    | Submit(host: string, port: nat)   // the login form
    | Answer(id: nat, brokeDown: bool)  // the reply to one of the client's requests arrives
    | Confirm
    | Cancel
    | Disconnect
    | AtGateway(step: Trust.Step)       // anything the gateway does, other clients included

  const IDLE := Client(false, false, None, None, None, {}, {}, {})

  function Attempting(w: World, req: Request): World {
    var id := |w.gateway.attempts|;
    World(Trust.Next(w.gateway, Start(req)),
          w.client.(busy := true, error := false, inFlight := w.client.inFlight + {id}, mine := w.client.mine + {id}))
  }

  function Advance(w: World, e: Event): World {
    match e
    case Submit(host, port) => Attempting(w, Request(host, Some(port), None))
    case Answer(id, brokeDown) =>
      if id in w.client.inFlight && id < |w.gateway.attempts| && ReplyOf(w.gateway.attempts[id], brokeDown).Some? then
        var c := w.client.(busy := false, inFlight := w.client.inFlight - {id});
        match ReplyOf(w.gateway.attempts[id], brokeDown).value
        case VerifyHostKey(fingerprint) =>
          w.(client := c.(pending := Some(w.gateway.attempts[id].req), hostKey := Some(fingerprint)))
        case Connected => w.(client := c.(session := Some(id)))
        case ErrorReply => w.(client := c.(error := true))
      else w
    case Confirm =>
      if w.client.pending.None? || w.client.hostKey.None? then w
      else
        var req, fingerprint := w.client.pending.value, w.client.hostKey.value;
        var c := w.client.(hostKey := None, pending := None,
                           confirmed := w.client.confirmed + {Confirmation(req.host, PortOf(req), fingerprint)});
        Attempting(w.(client := c), req.(trust := Some(fingerprint)))
    case Cancel => w.(client := w.client.(hostKey := None, pending := None))
    case Disconnect => w.(client := w.client.(session := None))
    case AtGateway(step) => w.(gateway := Trust.Next(w.gateway, step))
  }

  function Reach(file: PinFile, events: seq<Event>): World {
    if events == [] then World(Boot(file), IDLE)
    else Advance(Reach(file, events[..|events| - 1]), events[|events| - 1])
  }

  /** The page: the cells, and the handlers that set them. The gateway is the other side. */
  class Page {
    var busy: bool
    var error: bool
    var hostKey: Option<string>
    var pending: Option<Request>
    var session: Option<nat>
    var inFlight: set<nat>
    ghost var mine: set<nat>
    ghost var confirmed: set<Confirmation>
    const opener: SshOpener

    ghost function View(): World
      reads this, opener, opener.store, opener.store.disk
    {
      World(opener.View(), Client(busy, error, hostKey, pending, session, inFlight, mine, confirmed))
    }

    constructor (opener: SshOpener)
      ensures this.opener == opener && View() == World(opener.View(), IDLE)
    {
      this.opener := opener;
      busy, error, hostKey, pending, session := false, false, None, None, None;
      inFlight, mine, confirmed := {}, {}, {};
    }

    method Attempt(req: Request)
      requires opener.Valid()
      modifies this, opener
      ensures opener.Valid() && View() == Attempting(old(View()), req)
    {
      busy, error := true, false;
      var id := opener.Connect(req);
      inFlight, mine := inFlight + {id}, mine + {id};
    }

    method Replied(id: nat, brokeDown: bool)
      requires opener.Valid() && id in inFlight && id < |opener.attempts| && ReplyOf(opener.attempts[id], brokeDown).Some?
      modifies this
      ensures opener.Valid() && View() == Advance(old(View()), Answer(id, brokeDown))
    {
      match ReplyOf(opener.attempts[id], brokeDown).value {
        case VerifyHostKey(fingerprint) =>
          pending := Some(opener.attempts[id].req);
          hostKey := Some(fingerprint);
        case Connected => session := Some(id);
        case ErrorReply => error := true;
      }
      busy, inFlight := false, inFlight - {id};
    }

    method ConfirmHostKey()
      requires opener.Valid()
      modifies this, opener
      ensures opener.Valid() && View() == Advance(old(View()), Confirm)
    {
      if pending.None? || hostKey.None? { return; }
      var retry := pending.value.(trust := hostKey);
      confirmed := confirmed + {Confirmation(retry.host, PortOf(retry), hostKey.value)};
      hostKey, pending := None, None;
      Attempt(retry);
    }

    method CancelHostKey()
      modifies this
      ensures View() == Advance(old(View()), Cancel)
    {
      hostKey, pending := None, None;
    }
  }

  // ---------------------------------------------------------------- invariant

  /** The reply to attempt `i` asked the user about this key for this request. */
  predicate Asked(a: Attempt, req: Request, fingerprint: string) {
    a.phase == Refused(UnknownKey) && a.req == req && a.presented == Some(fingerprint)
  }

  /** The server presented this key to an earlier attempt at the same target, and the user was
      asked about it and confirmed it. */
  ghost predicate ShownAndConfirmed(w: World, a: Attempt, fingerprint: string) {
    && Confirmation(a.req.host, PortOf(a.req), fingerprint) in w.client.confirmed
    && exists j, req :: 0 <= j < |w.gateway.attempts| && Asked(w.gateway.attempts[j], req, fingerprint)
                        && req.host == a.req.host && PortOf(req) == PortOf(a.req)
  }

  ghost predicate Coherent(w: World) {
    var attempts := w.gateway.attempts;
    && (w.client.pending.Some? <==> w.client.hostKey.Some?)
    && (w.client.pending.Some? ==>
          exists j :: 0 <= j < |attempts| && Asked(attempts[j], w.client.pending.value, w.client.hostKey.value))
    && (forall id :: id in w.client.mine ==>
          id < |attempts|
          && (attempts[id].req.trust.Some? ==> ShownAndConfirmed(w, attempts[id], attempts[id].req.trust.value)))
    && w.client.inFlight <= w.client.mine
    && (w.client.session.Some? ==>
          w.client.session.value in w.client.mine && attempts[w.client.session.value].phase == Opened)
  }

  /** Requests never change, and a verdict once reached stays. */
  lemma GatewayKeeps(g: Gateway, step: Trust.Step)
    ensures var g' := Trust.Next(g, step);
            && |g.attempts| <= |g'.attempts|
            && (forall i :: 0 <= i < |g.attempts| ==> g'.attempts[i].req == g.attempts[i].req)
            && (forall i :: 0 <= i < |g.attempts| && !Active(g.attempts[i]) ==> g'.attempts[i] == g.attempts[i])
  {}

  lemma ShownStays(w: World, w': World, a: Attempt, a': Attempt, fingerprint: string)
    requires ShownAndConfirmed(w, a, fingerprint) && a'.req == a.req
    requires w.client.confirmed <= w'.client.confirmed && |w.gateway.attempts| <= |w'.gateway.attempts|
    requires forall i :: 0 <= i < |w.gateway.attempts| && !Active(w.gateway.attempts[i]) ==>
               w'.gateway.attempts[i] == w.gateway.attempts[i]
    ensures ShownAndConfirmed(w', a', fingerprint)
  {
    var j, req :| 0 <= j < |w.gateway.attempts| && Asked(w.gateway.attempts[j], req, fingerprint)
                  && req.host == a.req.host && PortOf(req) == PortOf(a.req);
    assert Asked(w'.gateway.attempts[j], req, fingerprint);
  }

  lemma AttemptingCoherent(w: World, req: Request)
    requires Coherent(w)
    requires req.trust.Some? ==> ShownAndConfirmed(w, Attempt(req, None, None, Connecting), req.trust.value)
    ensures Coherent(Attempting(w, req))
  {
    var w' := Attempting(w, req);
    forall id | id in w'.client.mine && w'.gateway.attempts[id].req.trust.Some?
      ensures ShownAndConfirmed(w', w'.gateway.attempts[id], w'.gateway.attempts[id].req.trust.value)
    {
      var a := if id in w.client.mine then w.gateway.attempts[id] else Attempt(req, None, None, Connecting);
      ShownStays(w, w', a, w'.gateway.attempts[id], a.req.trust.value);
    }
    if w.client.pending.Some? {
      var j :| 0 <= j < |w.gateway.attempts| && Asked(w.gateway.attempts[j], w.client.pending.value, w.client.hostKey.value);
      assert Asked(w'.gateway.attempts[j], w.client.pending.value, w.client.hostKey.value);
    }
  }

  lemma StepCoherent(w: World, e: Event)
    requires Coherent(w)
    ensures Coherent(Advance(w, e))
  {
    match e
    case Submit(host, port) => AttemptingCoherent(w, Request(host, Some(port), None));
    case Confirm => ConfirmCoherent(w);
    case Answer(id, brokeDown) => AnswerCoherent(w, id, brokeDown);
    case AtGateway(step) => GatewayCoherent(w, step);
    case _ => ClientCoherent(w, Advance(w, e));
  }

  lemma ClientCoherent(w: World, w': World)
    requires Coherent(w) && w'.gateway == w.gateway
    requires w'.client.mine == w.client.mine && w'.client.confirmed >= w.client.confirmed
    requires w'.client.inFlight <= w.client.inFlight
    requires (w'.client.pending == None && w'.client.hostKey == None)
             || (w'.client.pending == w.client.pending && w'.client.hostKey == w.client.hostKey)
    requires w'.client.session in {None, w.client.session}
    ensures Coherent(w')
  {
    forall id | id in w'.client.mine && w'.gateway.attempts[id].req.trust.Some?
      ensures ShownAndConfirmed(w', w'.gateway.attempts[id], w'.gateway.attempts[id].req.trust.value)
    {
      ShownStays(w, w', w.gateway.attempts[id], w.gateway.attempts[id], w.gateway.attempts[id].req.trust.value);
    }
  }

  lemma ConfirmCoherent(w: World)
    requires Coherent(w)
    ensures Coherent(Advance(w, Confirm))
  {
    if w.client.pending.Some? {
      var req, fingerprint := w.client.pending.value, w.client.hostKey.value;
      var mid := w.(client := w.client.(hostKey := None, pending := None,
                    confirmed := w.client.confirmed + {Confirmation(req.host, PortOf(req), fingerprint)}));
      ClientCoherent(w, mid);
      var j :| 0 <= j < |w.gateway.attempts| && Asked(w.gateway.attempts[j], req, fingerprint);
      var retry := req.(trust := Some(fingerprint));
      assert ShownAndConfirmed(mid, Attempt(retry, None, None, Connecting), fingerprint);
      AttemptingCoherent(mid, retry);
    }
  }

  lemma AnswerCoherent(w: World, id: nat, brokeDown: bool)
    requires Coherent(w)
    ensures Coherent(Advance(w, Answer(id, brokeDown)))
  {
    var w' := Advance(w, Answer(id, brokeDown));
    if w' != w {
      ClientCoherent(w, w.(client := w.client.(inFlight := w.client.inFlight - {id})));
      var a := w.gateway.attempts[id];
      if ReplyOf(a, brokeDown).value.VerifyHostKey? {
        assert Asked(w'.gateway.attempts[id], a.req, a.presented.value);
      }
      forall i | i in w'.client.mine && w'.gateway.attempts[i].req.trust.Some?
        ensures ShownAndConfirmed(w', w'.gateway.attempts[i], w'.gateway.attempts[i].req.trust.value)
      {
        ShownStays(w, w', w.gateway.attempts[i], w.gateway.attempts[i], w.gateway.attempts[i].req.trust.value);
      }
    }
  }

  lemma GatewayCoherent(w: World, step: Trust.Step)
    requires Coherent(w)
    ensures Coherent(Advance(w, AtGateway(step)))
  {
    var w' := Advance(w, AtGateway(step));
    GatewayKeeps(w.gateway, step);
    forall id | id in w'.client.mine && w'.gateway.attempts[id].req.trust.Some?
      ensures ShownAndConfirmed(w', w'.gateway.attempts[id], w'.gateway.attempts[id].req.trust.value)
    {
      ShownStays(w, w', w.gateway.attempts[id], w'.gateway.attempts[id], w.gateway.attempts[id].req.trust.value);
    }
    if w.client.pending.Some? {
      var j :| 0 <= j < |w.gateway.attempts| && Asked(w.gateway.attempts[j], w.client.pending.value, w.client.hostKey.value);
      assert Asked(w'.gateway.attempts[j], w.client.pending.value, w.client.hostKey.value);
    }
  }

  /** In every reachable state the pending request and the displayed fingerprint are both absent
      or both come from one reply, and every request of this client that carries a fingerprint
      carries one that the user was shown for that target and confirmed. */
  lemma {:induction false} AlwaysCoherent(file: PinFile, events: seq<Event>)
    ensures Coherent(Reach(file, events))
  {
    if events != [] {
      AlwaysCoherent(file, events[..|events| - 1]);
      StepCoherent(Reach(file, events[..|events| - 1]), events[|events| - 1]);
    }
  }

  lemma {:induction false} GatewaySafe(file: PinFile, events: seq<Event>)
    ensures Safe(Load(file), Reach(file, events).gateway)
  {
    if events != [] {
      var front := events[..|events| - 1];
      var w, e := Reach(file, front), events[|events| - 1];
      GatewaySafe(file, front);
      match e
      case AtGateway(step) => StepSafe(Load(file), w.gateway, step);
      case Submit(host, port) => StepSafe(Load(file), w.gateway, Start(Request(host, Some(port), None)));
      case Confirm =>
        if w.client.pending.Some? && w.client.hostKey.Some? {
          StepSafe(Load(file), w.gateway, Start(w.client.pending.value.(trust := w.client.hostKey)));
        }
      case _ =>
    }
  }

  // ---------------------------------------------------------------- end to end

  /** The handshake end to end: whenever this client has a session, the key that the server
      presented for it is either the pin that the gateway had for that target when the attempt
      began, or one that the user was shown for that target and confirmed. */
  lemma SessionsAreConfirmed(file: PinFile, events: seq<Event>)
    requires Reach(file, events).client.session.Some?
    ensures var w := Reach(file, events);
            && w.client.session.value < |w.gateway.attempts|
            && var a := w.gateway.attempts[w.client.session.value];
            && a.phase == Opened && a.presented.Some?
            && (Truthy(a.known) ==> a.presented == a.known)
            && (!Truthy(a.known) ==> ShownAndConfirmed(w, a, a.presented.value))
  {
    AlwaysCoherent(file, events);
    GatewaySafe(file, events);
    var w := Reach(file, events);
    assert OpenedRightly(w.gateway.attempts[w.client.session.value]);
  }

  /** If the server presents another key on the retry, the retry is refused, nothing is pinned,
      and its reply only asks again, about the new key. */
  lemma DifferentKeyAsksAgain(w: World, id: nat, fingerprint: string, brokeDown: bool)
    requires Coherent(w) && id in w.client.inFlight && Active(w.gateway.attempts[id])
    requires !Truthy(w.gateway.attempts[id].known) && w.gateway.attempts[id].req.trust != Some(fingerprint)
    ensures var judged := Advance(w, AtGateway(Verify(id, fingerprint)));
            var answered := Advance(judged, Answer(id, brokeDown));
            && answered.gateway.pins == w.gateway.pins
            && answered.client.session == w.client.session
            && answered.client.pending == Some(w.gateway.attempts[id].req)
            && answered.client.hostKey == Some(fingerprint)
            && (forall step: Trust.Step :: Trust.Next(judged.gateway, step).attempts[id].phase == Refused(UnknownKey))
  {
    var judged := Advance(w, AtGateway(Verify(id, fingerprint)));
    forall step: Trust.Step ensures Trust.Next(judged.gateway, step).attempts[id].phase == Refused(UnknownKey) {
      GatewayKeeps(judged.gateway, step);
    }
  }

  // ---------------------------------------------------------------- what each event does

  /** A reply ends the wait for it and says what the attempt came to: an open session, a question
      about the presented key for this very request, or an error. */
  lemma AnswerExact(w: World, id: nat, brokeDown: bool)
    requires id in w.client.inFlight && id < |w.gateway.attempts|
    ensures var a, c, c' := w.gateway.attempts[id], w.client, Advance(w, Answer(id, brokeDown)).client;
            && (a.phase in {Connecting, Trusted} ==> c' == c)
            && (a.phase == Opened && !brokeDown ==>
                  c' == c.(busy := false, inFlight := c.inFlight - {id}, session := Some(id)))
            && (a.phase == Refused(UnknownKey) && a.presented.Some? ==>
                  c' == c.(busy := false, inFlight := c.inFlight - {id}, pending := Some(a.req), hostKey := a.presented))
            && ((a.phase == Opened && brokeDown) || a.phase in {Refused(Mismatch), Failed} ==>
                  c' == c.(busy := false, inFlight := c.inFlight - {id}, error := true))
            && Advance(w, Answer(id, brokeDown)).gateway == w.gateway
  {}

  /** The form sends a request that confirms nothing; the dialog sends the pending one again, with
      the fingerprint that is shown, and closes; cancelling sends nothing and closes. */
  lemma SendingExact(w: World, host: string, port: nat)
    ensures var w' := Advance(w, Submit(host, port));
            && w'.gateway == Trust.Next(w.gateway, Start(Request(host, Some(port), None)))
            && w'.client == w.client.(busy := true, error := false,
                                      inFlight := w.client.inFlight + {|w.gateway.attempts|},
                                      mine := w.client.mine + {|w.gateway.attempts|})
    ensures w.client.pending.Some? && w.client.hostKey.Some? ==>
              var w' := Advance(w, Confirm);
              && w'.gateway == Trust.Next(w.gateway, Start(w.client.pending.value.(trust := w.client.hostKey)))
              && w'.client.pending.None? && w'.client.hostKey.None? && w'.client.busy && !w'.client.error
              && w'.client.inFlight == w.client.inFlight + {|w.gateway.attempts|}
    ensures Advance(w, Cancel) == w.(client := w.client.(pending := None, hostKey := None))
    ensures Advance(w, Disconnect) == w.(client := w.client.(session := None))
  {}

  lemma ReachSnoc(file: PinFile, events: seq<Event>, e: Event)
    ensures Reach(file, events + [e]) == Advance(Reach(file, events), e)
  {
    assert (events + [e])[..|events|] == events;
  }

  /** The form, and the reply that asks. */
  function Ask(host: string, port: nat, k: string): seq<Event> {
    [Submit(host, port)] + [AtGateway(Verify(0, k))] + [Answer(0, false)]
  }

  /** The confirmation, and the reply that connects. */
  function Accept(k: string): seq<Event> {
    [Confirm] + [AtGateway(Verify(1, k))] + [AtGateway(Ready(1))] + [Answer(1, false)]
  }

  lemma Asks(host: string, port: nat, k: string)
    ensures var req := Request(host, Some(port), None);
            var w := World(Gateway(map[], Missing, [Attempt(req, None, Some(k), Refused(UnknownKey))]),
                           Client(false, false, Some(k), Some(req), None, {}, {0}, {}));
            Reach(Missing, Ask(host, port, k)) == w
  {
    var none: seq<Event> := [];
    ReachSnoc(Missing, none, Submit(host, port));
    assert none + [Submit(host, port)] == [Submit(host, port)];
    ReachSnoc(Missing, [Submit(host, port)], AtGateway(Verify(0, k)));
    ReachSnoc(Missing, [Submit(host, port)] + [AtGateway(Verify(0, k))], Answer(0, false));
    var req := Request(host, Some(port), None);
    var asked := Advance(World(Boot(Missing), IDLE), Submit(host, port));
    assert asked.gateway.attempts == [Attempt(req, None, None, Connecting)];
    assert asked.client.inFlight == {0} && asked.client.mine == {0};
    var judged := Advance(asked, AtGateway(Verify(0, k)));
    assert judged.gateway.attempts == [Attempt(req, None, Some(k), Refused(UnknownKey))];
    assert judged.client.inFlight - {0} == {};
  }

  /** The state after the question has been confirmed and the key presented again. */
  lemma Accepts(w: World, req: Request, k: string)
    requires k != "" && req.trust.None?
    requires w == World(Gateway(map[], Missing, [Attempt(req, None, Some(k), Refused(UnknownKey))]),
                        Client(false, false, Some(k), Some(req), None, {}, {0}, {}))
    ensures var ready := Advance(Advance(Advance(w, Confirm), AtGateway(Verify(1, k))), AtGateway(Ready(1)));
            var done := Advance(ready, Answer(1, false));
            && done.client.session == Some(1) && done.client.pending.None? && !done.client.error && !done.client.busy
            && done.gateway.pins == map[KeyOf(req) := k] && done.gateway.file == Json(done.gateway.pins)
  {
    var retry := req.(trust := Some(k));
    var sent := Advance(w, Confirm);
    assert sent.gateway.attempts[1] == Attempt(retry, None, None, Connecting) && 1 in sent.client.inFlight;
    var judged := Advance(sent, AtGateway(Verify(1, k)));
    assert judged.gateway.attempts[1] == Attempt(retry, None, Some(k), Trusted);
    var ready := Advance(judged, AtGateway(Ready(1)));
    assert ready.gateway.attempts[1].phase == Opened;
    assert map[][KeyOf(req) := k] == map[KeyOf(req) := k];
  }

  /** The whole handshake: with no pin file, for every host, port and key, submitting the form,
      confirming the key that is shown, and the server presenting it again end in a session,
      with that key pinned for that target and nothing else. */
  lemma FirstContact(host: string, port: nat, k: string)
    requires k != ""
    ensures var w := Reach(Missing, Ask(host, port, k) + Accept(k));
            && w.client.session == Some(1) && !w.client.error && !w.client.busy
            && w.gateway.pins == map[Key(host, port) := k] && w.gateway.file == Json(w.gateway.pins)
  {
    var ask := Ask(host, port, k);
    Asks(host, port, k);
    ReachSnoc(Missing, ask, Confirm);
    ReachSnoc(Missing, ask + [Confirm], AtGateway(Verify(1, k)));
    ReachSnoc(Missing, ask + [Confirm] + [AtGateway(Verify(1, k))], AtGateway(Ready(1)));
    ReachSnoc(Missing, ask + [Confirm] + [AtGateway(Verify(1, k))] + [AtGateway(Ready(1))], Answer(1, false));
    assert ask + Accept(k) == ask + [Confirm] + [AtGateway(Verify(1, k))] + [AtGateway(Ready(1))] + [Answer(1, false)];
    Accepts(Reach(Missing, ask), Request(host, Some(port), None), k);
  }
}
