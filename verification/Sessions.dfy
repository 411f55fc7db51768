/** The session registry of the gateway and the connections it owns. A registered session is
    closed exactly once, exactly when it leaves the registry; a transient session opened for
    one elevated call is closed exactly once, when the call ends, however it ends. */
module Sessions {
  import opened Text

  /** Why a connection was opened: for a session under an id, for one elevated call, or by an
      opener that failed after connecting, which returns no session to register. */
  datatype Purpose = Registered(id: string) | Transient | Abandoned

  datatype Connection = Connection(purpose: Purpose, closes: nat)

  /** How far an elevated call is. Its session is looked up first; then the call waits for its
      executor, which for another user means for a whole connection; then the adapter is called. */
  datatype Stage = Waiting | Running | Ended(threw: bool) | Refused

  /** `transient` is the connection that the cleanup of the call closes. */
  datatype Call = Call(id: string, otherUser: bool, transient: Option<nat>, stage: Stage)

  /** `issued` holds every id ever handed out; `served` the id of each request that reached an
      adapter, oldest first. */
  datatype Gateway = Gateway(
    sessions: map<string, nat>,
    connections: seq<Connection>,
    calls: seq<Call>,
    issued: set<string>,
    served: seq<string>)

  datatype Event =
    | Connect(id: string)                  // id is what the generator returns
    | OpenerThrows
    | Disconnect(id: string)
    | PlainCall(id: string)                // looked up and called in one go
    | LookUp(id: string, otherUser: bool)  // an elevated call begins
    | ExecutorReady(call: nat)
    | ConnectionRefused(call: nat)
    | CallEnds(call: nat, threw: bool)
    | CloseAll

  const START := Gateway(map[], [], [], {}, [])

  // ---------------------------------------------------------------- transitions

  function Closed(connections: seq<Connection>, c: nat): seq<Connection> {
    if c < |connections| then connections[c := connections[c].(closes := connections[c].closes + 1)] else connections
  }

  function ClosedAll(connections: seq<Connection>, cs: set<nat>): seq<Connection> {
    seq(|connections|, i requires 0 <= i < |connections| =>
      if i in cs then connections[i].(closes := connections[i].closes + 1) else connections[i])
  }

  function Removed(g: Gateway, id: string): Gateway {
    if id in g.sessions then
      g.(connections := Closed(g.connections, g.sessions[id]), sessions := g.sessions - {id})
    else g
  }

  function Next(g: Gateway, e: Event): Gateway {
    match e
    case Connect(id) =>
      if id in g.issued then g
      else g.(connections := g.connections + [Connection(Registered(id), 0)],
              sessions := g.sessions[id := |g.connections|],
              issued := g.issued + {id})
    case OpenerThrows => g.(connections := g.connections + [Connection(Abandoned, 0)])
    case Disconnect(id) => Removed(g, id)
    case PlainCall(id) => if id in g.sessions then g.(served := g.served + [id]) else g
    case LookUp(id, otherUser) =>
      if id in g.sessions then g.(calls := g.calls + [Call(id, otherUser, None, Waiting)]) else g
    case ExecutorReady(call) =>
      if call < |g.calls| && g.calls[call].stage == Waiting then
        var c, g' := g.calls[call], g.(served := g.served + [g.calls[call].id]);
        if c.otherUser then
          g'.(connections := g.connections + [Connection(Transient, 0)],
              calls := g.calls[call := c.(transient := Some(|g.connections|), stage := Running)])
        else g'.(calls := g.calls[call := c.(stage := Running)])
      else g
    case ConnectionRefused(call) =>
      if call < |g.calls| && g.calls[call].stage == Waiting && g.calls[call].otherUser then
        g.(calls := g.calls[call := g.calls[call].(stage := Refused)])
      else g
    case CallEnds(call, threw) =>
      if call < |g.calls| && g.calls[call].stage == Running then
        var g' := g.(calls := g.calls[call := g.calls[call].(stage := Ended(threw))]);
        if g.calls[call].transient.Some? then
          g'.(connections := Closed(g.connections, g.calls[call].transient.value))
        else g'
      else g
    case CloseAll => g.(connections := ClosedAll(g.connections, g.sessions.Values), sessions := map[])
  }

  function From(g: Gateway, events: seq<Event>): Gateway {
    if events == [] then g else Next(From(g, events[..|events| - 1]), events[|events| - 1])
  }

  function Reach(events: seq<Event>): Gateway { From(START, events) }

  // ---------------------------------------------------------------- the objects

  class Network {
    var connections: seq<Connection>

    constructor ()
      ensures connections == []
    {
      connections := [];
    }

    method Open(purpose: Purpose) returns (c: nat)
      modifies this
      ensures connections == old(connections) + [Connection(purpose, 0)] && c == |old(connections)|
    {
      c := |connections|;
      connections := connections + [Connection(purpose, 0)];
    }

    method Close(c: nat)
      requires c < |connections|
      modifies this
      ensures connections == Closed(old(connections), c)
    {
      connections := connections[c := connections[c].(closes := connections[c].closes + 1)];
    }
  }

  class SessionManager {
    var sessions: map<string, nat>
    const network: Network

    /** Different ids are different connections, all of them there. */
    predicate Valid()
      reads this, network
    {
      && (forall id :: id in sessions ==> sessions[id] < |network.connections|)
      && (forall a, b :: a in sessions && b in sessions && sessions[a] == sessions[b] ==> a == b)
    }

    constructor (network: Network)
      ensures this.network == network && sessions == map[] && Valid()
    {
      this.network := network;
      sessions := map[];
    }

    /** Registers a connection under an id that the generator just made. */
    method Add(id: string) returns (c: nat)
      requires Valid() && id !in sessions
      modifies this, network
      ensures Valid() && c == |old(network.connections)|
      ensures network.connections == old(network.connections) + [Connection(Registered(id), 0)]
      ensures sessions == old(sessions)[id := c]
    {
      c := network.Open(Registered(id));
      sessions := sessions[id := c];
    }

    method Remove(id: string) returns (existed: bool)
      requires Valid()
      modifies this, network
      ensures Valid() && existed == (id in old(sessions))
      ensures sessions == old(sessions) - {id}
      ensures network.connections ==
              if existed then Closed(old(network.connections), old(sessions)[id]) else old(network.connections)
    {
      if id !in sessions { return false; }
      network.Close(sessions[id]);
      sessions := sessions - {id};
      return true;
    }

    /** The loop over a snapshot of the keys closes each registered connection once. */
    method CloseEvery()
      requires Valid()
      modifies this, network
      ensures Valid() && sessions == map[] && |sessions| == 0
      ensures network.connections == ClosedAll(old(network.connections), old(sessions).Values)
    {
      ghost var before, was := network.connections, sessions;
      var ids := sessions.Keys;
      assert network.connections == ClosedAll(before, {});
      while ids != {}
        invariant Valid() && ids <= was.Keys
        invariant sessions == was - (was.Keys - ids)
        invariant forall a, b :: a in was && b in was && was[a] == was[b] ==> a == b
        invariant network.connections == ClosedAll(before, Handles(was, was.Keys - ids))
        decreases ids
      {
        var id :| id in ids;
        ghost var done := was.Keys - ids;
        var existed := Remove(id);
        CloseOneMore(before, was, done, id);
        assert was.Keys - (ids - {id}) == done + {id};
        ids := ids - {id};
      }
      assert was.Keys - {} == was.Keys;
      assert Handles(was, was.Keys) == was.Values;
    }
  }

  ghost function Handles(sessions: map<string, nat>, ids: set<string>): set<nat> {
    set id | id in ids && id in sessions :: sessions[id]
  }

  lemma CloseOneMore(before: seq<Connection>, was: map<string, nat>, done: set<string>, id: string)
    requires id in was && id !in done && was[id] < |before|
    requires forall a, b :: a in was && b in was && was[a] == was[b] ==> a == b
    ensures Closed(ClosedAll(before, Handles(was, done)), was[id]) == ClosedAll(before, Handles(was, done + {id}))
  {
    assert was[id] !in Handles(was, done);
    assert Handles(was, done + {id}) == Handles(was, done) + {was[id]};
  }

  datatype Mode = Plain | CurrentUser | OtherUser

  /** How something awaited came out. */
  datatype Outcome = Returns(value: string) | Throws(message: string)

  /** `runCap`: the transient connection, if one came up, is closed once on both ways out, and
      the outcome of the action, or else of the failed connection, is passed on. */
  method RunCap(network: Network, mode: Mode, refusal: Option<string>, action: Outcome) returns (outcome: Outcome)
    modifies network
    ensures outcome == if mode == OtherUser && refusal.Some? then Throws(refusal.value) else action
    ensures network.connections
         == old(network.connections) + if mode == OtherUser && refusal.None? then [Connection(Transient, 1)] else []
  {
    var transient: Option<nat> := None;
    if mode == OtherUser {
      if refusal.Some? { return Throws(refusal.value); }
      var c := network.Open(Transient);
      transient := Some(c);
    }
    match action {
      case Returns(value) =>
        if transient.Some? { network.Close(transient.value); }
        return Returns(value);
      case Throws(message) =>
        if transient.Some? { network.Close(transient.value); }
        return Throws(message);
    }
  }

  // ---------------------------------------------------------------- conservation

  /** How often a connection must have been closed by now. */
  ghost predicate ClosedRightly(g: Gateway, c: nat)
    requires c < |g.connections|
  {
    var n := g.connections[c].closes;
    match g.connections[c].purpose
    case Registered(id) => if id in g.sessions && g.sessions[id] == c then n == 0 else n == 1
    case Transient => n == if exists k :: Holds(g, k, c) then 0 else 1
    case Abandoned => n == 0
  }

  /** Call `k` is under way on the transient connection `c`. */
  predicate Holds(g: Gateway, k: int, c: nat) {
    0 <= k < |g.calls| && g.calls[k].stage == Running && g.calls[k].transient == Some(c)
  }

  ghost predicate Invariant(g: Gateway) {
    && (forall id :: id in g.sessions ==>
          g.sessions[id] < |g.connections| && g.connections[g.sessions[id]].purpose == Registered(id) && id in g.issued)
    && (forall c :: 0 <= c < |g.connections| && g.connections[c].purpose.Registered? ==> g.connections[c].purpose.id in g.issued)
    && (forall k :: 0 <= k < |g.calls| && g.calls[k].transient.Some? ==>
          g.calls[k].transient.value < |g.connections|
          && g.connections[g.calls[k].transient.value].purpose == Transient)
    && (forall k :: 0 <= k < |g.calls| && g.calls[k].stage == Waiting ==> g.calls[k].transient.None?)
    && (forall k, m :: 0 <= k < m < |g.calls| && g.calls[k].transient.Some? ==> g.calls[k].transient != g.calls[m].transient)
    && (forall c :: 0 <= c < |g.connections| ==> ClosedRightly(g, c))
  }

  lemma RemoveInvariant(g: Gateway, id: string)
    requires Invariant(g)
    ensures Invariant(Removed(g, id))
  {
    var g' := Removed(g, id);
    forall c | 0 <= c < |g'.connections| ensures ClosedRightly(g', c) {
      assert ClosedRightly(g, c);
      assert forall k :: Holds(g', k, c) <==> Holds(g, k, c);
    }
  }

  lemma CloseAllInvariant(g: Gateway)
    requires Invariant(g)
    ensures Invariant(Next(g, CloseAll))
  {
    var g' := Next(g, CloseAll);
    forall c | 0 <= c < |g'.connections| ensures ClosedRightly(g', c) {
      assert ClosedRightly(g, c);
      assert forall k :: Holds(g', k, c) <==> Holds(g, k, c);
      if c in g.sessions.Values {
        var id :| id in g.sessions && g.sessions[id] == c;
      }
    }
  }

  /** A step that only adds connections and calls leaves the others as they were. */
  lemma OthersUnmoved(g: Gateway, g': Gateway, c: nat)
    requires c < |g.connections| <= |g'.connections| && ClosedRightly(g, c)
    requires g'.connections[c] == g.connections[c]
    requires forall id :: id in g.sessions ==> id in g'.sessions && g'.sessions[id] == g.sessions[id]
    requires forall id :: id in g'.sessions && g'.sessions[id] == c ==> id in g.sessions
    requires forall k :: Holds(g', k, c) <==> Holds(g, k, c)
    ensures ClosedRightly(g', c)
  {}

  lemma ConnectInvariant(g: Gateway, e: Event)
    requires Invariant(g) && (e.Connect? || e.OpenerThrows? || e.PlainCall?)
    ensures Invariant(Next(g, e))
  {
    var g' := Next(g, e);
    forall c | 0 <= c < |g'.connections| ensures ClosedRightly(g', c) {
      if c < |g.connections| {
        assert forall k :: Holds(g', k, c) <==> Holds(g, k, c);
        OthersUnmoved(g, g', c);
      }
    }
  }

  /** A call that begins to wait, or gives up waiting, touches no connection. */
  lemma WaitInvariant(g: Gateway, e: Event)
    requires Invariant(g) && (e.LookUp? || e.ConnectionRefused?)
    ensures Invariant(Next(g, e))
  {
    var g' := Next(g, e);
    forall c | 0 <= c < |g'.connections| ensures ClosedRightly(g', c) {
      forall k ensures Holds(g', k, c) <==> Holds(g, k, c) {}
      OthersUnmoved(g, g', c);
    }
  }

  lemma ReadyInvariant(g: Gateway, call: nat)
    requires Invariant(g)
    ensures Invariant(Next(g, ExecutorReady(call)))
  {
    var g' := Next(g, ExecutorReady(call));
    forall c | 0 <= c < |g'.connections| ensures ClosedRightly(g', c) {
      if c < |g.connections| {
        forall k ensures Holds(g', k, c) <==> Holds(g, k, c) {}
        OthersUnmoved(g, g', c);
      } else {
        assert Holds(g', call, c);
      }
    }
  }

  lemma EndInvariant(g: Gateway, call: nat, threw: bool)
    requires Invariant(g)
    ensures Invariant(Next(g, CallEnds(call, threw)))
  {
    var g' := Next(g, CallEnds(call, threw));
    forall c | 0 <= c < |g'.connections| ensures ClosedRightly(g', c) {
      assert ClosedRightly(g, c);
      if g' != g {
        forall k ensures Holds(g', k, c) <==> Holds(g, k, c) && k != call {}
        assert g.calls[call].transient == Some(c) ==> Holds(g, call, c);
      }
    }
  }

  lemma StepInvariant(g: Gateway, e: Event)
    requires Invariant(g)
    ensures Invariant(Next(g, e))
  {
    match e
    case Disconnect(id) => RemoveInvariant(g, id);
    case CloseAll => CloseAllInvariant(g);
    case CallEnds(call, threw) => EndInvariant(g, call, threw);
    case LookUp(_, _) => WaitInvariant(g, e);
    case ConnectionRefused(_) => WaitInvariant(g, e);
    case ExecutorReady(call) => ReadyInvariant(g, call);
    case _ => ConnectInvariant(g, e);
  }

  /** Session conservation: over every run, a registered session has been closed exactly once
      if it has left the registry and not at all before, and a transient one exactly once if its
      call has ended, by return or throw, and not at all before. */
  lemma {:induction false} Conservation(events: seq<Event>)
    ensures Invariant(Reach(events))
  {
    if events != [] {
      var front := events[..|events| - 1];
      Conservation(front);
      StepInvariant(Reach(front), events[|events| - 1]);
    }
  }

  // ---------------------------------------------------------------- ids that have left

  /** The id was handed out and is no longer in the registry. */
  predicate Gone(g: Gateway, id: string) { id in g.issued && id !in g.sessions }

  /** Call `k` has looked its session up under `id` and not yet called the adapter. */
  predicate Waits(g: Gateway, k: int, id: string) {
    0 <= k < |g.calls| && g.calls[k].stage == Waiting && g.calls[k].id == id
  }

  function WaitingUnder(g: Gateway, id: string): (ks: set<int>)
    ensures forall k :: k in ks <==> Waits(g, k, id)
  {
    set k | 0 <= k < |g.calls| && Waits(g, k, id)
  }

  /** How often `id` has been served, plus how often it may still be. */
  function Served(g: Gateway, id: string): nat { multiset(g.served)[id] }

  lemma FewerWait(g: Gateway, g': Gateway, id: string)
    requires forall k :: Waits(g', k, id) ==> Waits(g, k, id)
    ensures |WaitingUnder(g', id)| <= |WaitingUnder(g, id)|
  {
    var now, was := WaitingUnder(g', id), WaitingUnder(g, id);
    assert was == now + (was - now);
  }

  lemma ReadySpends(g: Gateway, call: nat, id: string)
    requires Gone(g, id) && call < |g.calls| && g.calls[call].stage == Waiting
    ensures var g' := Next(g, ExecutorReady(call));
            Served(g', id) + |WaitingUnder(g', id)| <= Served(g, id) + |WaitingUnder(g, id)|
  {
    var g' := Next(g, ExecutorReady(call));
    assert g'.served == g.served + [g.calls[call].id];
    forall k ensures Waits(g', k, id) <==> Waits(g, k, id) && k != call {}
    assert WaitingUnder(g', id) == WaitingUnder(g, id) - {call};
  }

  lemma StepSpends(g: Gateway, e: Event, id: string)
    requires Gone(g, id)
    ensures var g' := Next(g, e);
            && Gone(g', id) && g.served <= g'.served
            && Served(g', id) + |WaitingUnder(g', id)| <= Served(g, id) + |WaitingUnder(g, id)|
  {
    var g' := Next(g, e);
    if e.ExecutorReady? && e.call < |g.calls| && g.calls[e.call].stage == Waiting {
      ReadySpends(g, e.call, id);
    } else {
      forall k | Waits(g', k, id) ensures Waits(g, k, id) {}
      FewerWait(g, g', id);
    }
  }

  lemma {:induction false} RunSpends(g: Gateway, more: seq<Event>, id: string)
    requires Gone(g, id)
    ensures var last := From(g, more);
            && Gone(last, id) && g.served <= last.served
            && Served(last, id) + |WaitingUnder(last, id)| <= Served(g, id) + |WaitingUnder(g, id)|
  {
    if more != [] {
      var front := more[..|more| - 1];
      RunSpends(g, front, id);
      StepSpends(From(g, front), more[|more| - 1], id);
    }
  }

  /** A request under `id` reaches an adapter in the course of `more`. */
  predicate ServedLater(g: Gateway, more: seq<Event>, id: string) {
    |g.served| <= |From(g, more).served| && id in From(g, more).served[|g.served|..]
  }

  /** Once an id has left the registry it never comes back, and it reaches an adapter at most
      once for every call that was waiting under it when it left. */
  lemma RemovedStaysRemoved(g: Gateway, more: seq<Event>, id: string)
    requires Gone(g, id)
    ensures var last := From(g, more);
            && Gone(last, id) && g.served <= last.served
            && multiset(last.served[|g.served|..])[id] <= |WaitingUnder(g, id)|
  {
    RunSpends(g, more, id);
    var last := From(g, more);
    assert last.served == g.served + last.served[|g.served|..];
  }

  /** Exactly: an id that has left can still reach an adapter if and only if a call was
      waiting under it when it left. */
  lemma RemovedReachesAdapter(g: Gateway, id: string)
    requires Gone(g, id)
    ensures (exists more :: ServedLater(g, more, id)) <==> (exists k :: Waits(g, k, id))
  {
    if k :| Waits(g, k, id) {
      var more := [ExecutorReady(k)];
      assert more[..0] == [] && From(g, more[..0]) == g;
      assert From(g, more).served == g.served + [id];
      assert ServedLater(g, more, id);
    } else {
      forall more ensures !ServedLater(g, more, id) {
        RemovedStaysRemoved(g, more, id);
        assert WaitingUnder(g, id) == {};
      }
    }
  }

  /** The failing case: a session is disconnected while the connection for an elevated call
      under it comes up; the call then runs under an id that is no longer registered. */
  lemma DisconnectedWhileWaiting(id: string)
    ensures var events := [Connect(id), LookUp(id, true), Disconnect(id)];
            var last := Reach(events + [ExecutorReady(0)]);
            && Gone(Reach(events), id) && Reach(events).served == []
            && last.sessions == map[] && last.served == [id]
            && last.connections == [Connection(Registered(id), 1), Connection(Transient, 0)]
  {
    var events := [Connect(id), LookUp(id, true), Disconnect(id)];
    var all := events + [ExecutorReady(0)];
    assert all[..3] == events && events[..2] == [Connect(id), LookUp(id, true)];
    assert events[..2][..1] == [Connect(id)] && events[..2][..1][..0] == [];
    var one := Next(START, Connect(id));
    var two := Next(one, LookUp(id, true));
    assert From(START, events[..2][..1]) == Next(From(START, []), Connect(id)) == one;
    assert From(START, events[..2]) == two;
    assert two.sessions - {id} == map[];
  }

  /** After closing everything, with no call running, the connections still open are exactly
      those whose opener failed after connecting: nothing else leaks. */
  lemma OnlyAbandonedLeak(events: seq<Event>)
    requires forall k :: 0 <= k < |Reach(events).calls| ==> Reach(events).calls[k].stage != Running
    ensures var g := Next(Reach(events), CloseAll);
            && g.sessions == map[]
            && forall c :: 0 <= c < |g.connections| ==> (g.connections[c].closes == 0 <==> g.connections[c].purpose.Abandoned?)
  {
    Conservation(events);
    StepInvariant(Reach(events), CloseAll);
    var g := Next(Reach(events), CloseAll);
    forall c | 0 <= c < |g.connections| ensures g.connections[c].closes == 0 <==> g.connections[c].purpose.Abandoned? {
      assert ClosedRightly(g, c);
    }
  }

  // ---------------------------------------------------------------- what a request does

  /** A plain request reaches an adapter if and only if its id is registered. */
  lemma PlainCallExact(g: Gateway, id: string)
    ensures Next(g, PlainCall(id)) == if id in g.sessions then g.(served := g.served + [id]) else g
    ensures Next(g, PlainCall(id)).served == g.served + [id] <==> id in g.sessions
  {}

  /** The life of an elevated call under a registered id: it reaches the adapter once; another user
      costs one connection, which is closed at its end, the connected user none; a refused
      connection reaches nothing and leaves nothing open. */
  lemma ElevatedCallLife(g: Gateway, id: string, otherUser: bool, threw: bool)
    requires id in g.sessions
    ensures var k := |g.calls|;
            var waiting := Next(g, LookUp(id, otherUser));
            var running := Next(waiting, ExecutorReady(k));
            var ended, refused := Next(running, CallEnds(k, threw)), Next(waiting, ConnectionRefused(k));
            && waiting.served == g.served && waiting.connections == g.connections
            && running.served == ended.served == g.served + [id]
            && running.connections == g.connections + (if otherUser then [Connection(Transient, 0)] else [])
            && ended.connections == g.connections + (if otherUser then [Connection(Transient, 1)] else [])
            && refused.served == g.served && refused.connections == g.connections
            && (otherUser <==> Next(refused, ExecutorReady(k)) == refused)
            && ended.sessions == g.sessions && ended.calls == g.calls + [ended.calls[k]] && ended.calls[k].stage == Ended(threw)
  {
    if otherUser {
      assert (g.connections + [Connection(Transient, 0)])[|g.connections| := Connection(Transient, 1)]
          == g.connections + [Connection(Transient, 1)];
    }
  }

  /** Connecting registers an open connection under a fresh id; disconnecting closes the one of the
      id, once, and forgets it; an unknown id changes nothing. */
  lemma RegistryExact(g: Gateway, id: string)
    ensures id !in g.issued ==>
              var g' := Next(g, Connect(id));
              && g'.connections == g.connections + [Connection(Registered(id), 0)]
              && g'.sessions == g.sessions[id := |g.connections|] && id in g'.issued
    ensures id in g.sessions && g.sessions[id] < |g.connections| ==>
              var g', c := Next(g, Disconnect(id)), g.sessions[id];
              && id !in g'.sessions && g'.sessions == g.sessions - {id}
              && g'.connections == g.connections[c := Connection(g.connections[c].purpose, g.connections[c].closes + 1)]
    ensures id !in g.sessions ==> Next(g, Disconnect(id)) == g
  {}

  lemma PurposeStays(g: Gateway, e: Event, c: nat)
    requires Invariant(g) && c < |g.connections|
    ensures c < |Next(g, e).connections| && Next(g, e).connections[c].purpose == g.connections[c].purpose
  {}

  lemma {:induction false} PurposeKept(g: Gateway, more: seq<Event>, c: nat)
    requires Invariant(g) && c < |g.connections|
    ensures Invariant(From(g, more))
    ensures c < |From(g, more).connections| && From(g, more).connections[c].purpose == g.connections[c].purpose
  {
    if more != [] {
      var front := more[..|more| - 1];
      PurposeKept(g, front, c);
      StepInvariant(From(g, front), more[|more| - 1]);
      PurposeStays(From(g, front), more[|more| - 1], c);
    }
  }

  /** An opener that fails after connecting leaves a connection that nothing ever closes, whatever
      follows, and no session. */
  lemma OpenerLeaks(events: seq<Event>, more: seq<Event>)
    ensures var g := Reach(events);
            var leaked := Next(g, OpenerThrows);
            && leaked.sessions == g.sessions && |leaked.connections| == |g.connections| + 1
            && var last := From(leaked, more);
               |g.connections| < |last.connections| && last.connections[|g.connections|] == Connection(Abandoned, 0)
  {
    var g := Reach(events);
    Conservation(events);
    StepInvariant(g, OpenerThrows);
    PurposeKept(Next(g, OpenerThrows), more, |g.connections|);
    assert ClosedRightly(From(Next(g, OpenerThrows), more), |g.connections|);
  }
}
