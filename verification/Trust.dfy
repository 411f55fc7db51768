/** Host-key trust: the store of pinned fingerprints and the connection attempts that read it
    when they start, judge the presented key, and pin a newly trusted key when they succeed.
    Attempts interleave freely; the gateway can restart at any point. */
module Trust {
  import opened Text

  // ---------------------------------------------------------------- the store

  type Pins = map<string, string>

  /** The pin file: absent, not JSON, or a JSON object of strings. */
  datatype PinFile = Missing | Malformed | Json(pins: Pins)

  function Load(file: PinFile): Pins {
    if file.Json? then file.pins else map[]
  }

  class Disk {
    var file: PinFile

    constructor (file: PinFile)
      ensures this.file == file
    {
      this.file := file;
    }
  }

  class FileKnownHosts {
    var pins: Pins
    const disk: Disk

    /** Memory and file agree. */
    ghost predicate Valid()
      reads this, disk
    {
      pins == Load(disk.file)
    }

    constructor (disk: Disk)
      ensures Valid() && this.disk == disk
    {
      this.disk := disk;
      pins := Load(disk.file);
    }

    function Get(hostPort: string): Option<string>
      reads this
    {
      if hostPort in pins then Some(pins[hostPort]) else None
    }

    method Add(hostPort: string, fingerprint: string)
      modifies this, disk
      ensures Valid() && pins == old(pins)[hostPort := fingerprint] && disk.file == Json(pins)
    {
      pins := pins[hostPort := fingerprint];
      disk.file := Json(pins);
    }
  }

  // ---------------------------------------------------------------- requests and keys

  datatype Request = Request(host: string, port: Option<nat>, trust: Option<string>)

  const DEFAULT_PORT: nat := 22

  function PortOf(req: Request): nat {
    if req.port.Some? then req.port.value else DEFAULT_PORT
  }

  function Key(host: string, port: nat): string { host + ":" + Print(port, 10) }

  function KeyOf(req: Request): string { Key(req.host, PortOf(req)) }

  /** Different targets never share a pin, even when host names contain colons. */
  lemma KeyInjective(host1: string, port1: nat, host2: string, port2: nat)
    requires Key(host1, port1) == Key(host2, port2)
    ensures host1 == host2 && port1 == port2
  {
    var d1, d2 := Print(port1, 10), Print(port2, 10);
    KeySplit(host1, d1, host2, d2);
    KeySplit(host2, d2, host1, d1);
    var s := Key(host1, port1);
    assert s[|s| - |d1|..] == d1 && s[|s| - |d2|..] == d2;
    assert s[..|s| - |d1| - 1] == host1 && s[..|s| - |d2| - 1] == host2;
    PrintInjective(port1, port2, 10);
  }

  lemma KeySplit(host1: string, d1: string, host2: string, d2: string)
    requires host1 + ":" + d1 == host2 + ":" + d2
    requires forall c :: c in d2 ==> IsDigit(c, 10)
    ensures |d1| >= |d2|
  {
    var s := host1 + ":" + d1;
    forall i | |host2| < i < |s| ensures IsDigit(s[i], 10) {
      assert s[i] == d2[i - |host2| - 1];
    }
    assert s[|host1|] == ':';
  }

  // ---------------------------------------------------------------- attempts

  datatype Reason = UnknownKey | Mismatch

  datatype Phase =
    | Connecting
    | Trusted            // the verifier accepted the presented key
    | Refused(why: Reason)
    | Failed             // network or authentication error, or the gateway stopped
    | Opened

  /** The variables of one `connect`: the request, the pin read at the start, and the key the
      server presented last. */
  datatype Attempt = Attempt(req: Request, known: Option<string>, presented: Option<string>, phase: Phase)

  /** The store, its file, and every attempt ever made, in order. */
  datatype Gateway = Gateway(pins: Pins, file: PinFile, attempts: seq<Attempt>)

  datatype Step =
    | Start(req: Request)
    | Verify(id: nat, fingerprint: string)
    | Ready(id: nat)
    | Fail(id: nat)
    | Restart

  /** A JavaScript string that counts as true. */
  predicate Truthy(s: Option<string>) { s.Some? && s.value != "" }

  function Lookup(pins: Pins, key: string): Option<string> {
    if key in pins then Some(pins[key]) else None
  }

  /** The verifier's decision. */
  function Judge(known: Option<string>, trust: Option<string>, fingerprint: string): Phase {
    if Truthy(known) then
      if fingerprint == known.value then Trusted else Refused(Mismatch)
    else if Truthy(trust) && trust.value == fingerprint then Trusted
    else Refused(UnknownKey)
  }

  predicate Active(a: Attempt) { a.phase == Connecting || a.phase == Trusted }

  function Stop(a: Attempt): Attempt { if Active(a) then a.(phase := Failed) else a }

  function Next(g: Gateway, step: Step): Gateway {
    match step
    case Start(req) =>
      g.(attempts := g.attempts + [Attempt(req, Lookup(g.pins, KeyOf(req)), None, Connecting)])
    case Verify(id, fingerprint) =>
      if id < |g.attempts| && Active(g.attempts[id]) then
        var a := g.attempts[id];
        g.(attempts := g.attempts[id := a.(presented := Some(fingerprint),
                                           phase := Judge(a.known, a.req.trust, fingerprint))])
      else g
    case Ready(id) =>
      if id < |g.attempts| && g.attempts[id].phase == Trusted then
        var a := g.attempts[id];
        var g' := g.(attempts := g.attempts[id := a.(phase := Opened)]);
        if a.presented.Some? && !Truthy(a.known) then
          var pins := g.pins[KeyOf(a.req) := a.presented.value];
          g'.(pins := pins, file := Json(pins))
        else g'
      else g
    case Fail(id) =>
      if id < |g.attempts| && Active(g.attempts[id]) then
        g.(attempts := g.attempts[id := g.attempts[id].(phase := Failed)])
      else g
    case Restart =>
      Gateway(Load(g.file), g.file, seq(|g.attempts|, i requires 0 <= i < |g.attempts| => Stop(g.attempts[i])))
  }

  function Boot(file: PinFile): Gateway { Gateway(Load(file), file, []) }

  function Run(file: PinFile, steps: seq<Step>): Gateway {
    if steps == [] then Boot(file) else Next(Run(file, steps[..|steps| - 1]), steps[|steps| - 1])
  }

  /** The opener: closures of the attempts as records, the store as an object. */
  class SshOpener {
    const store: FileKnownHosts
    var attempts: seq<Attempt>

    ghost predicate Valid()
      reads this, store, store.disk
    {
      store.Valid()
    }

    ghost function View(): Gateway
      reads this, store, store.disk
    {
      Gateway(store.pins, store.disk.file, attempts)
    }

    constructor (store: FileKnownHosts)
      requires store.Valid()
      ensures this.store == store && Valid() && View() == Gateway(store.pins, store.disk.file, [])
    {
      this.store := store;
      attempts := [];
    }

    method Connect(req: Request) returns (id: nat)
      requires Valid()
      modifies this
      ensures Valid() && View() == Next(old(View()), Start(req)) && id == old(|attempts|)
    {
      id := |attempts|;
      var known := store.Get(KeyOf(req));
      attempts := attempts + [Attempt(req, known, None, Connecting)];
    }

    method VerifyHostKey(id: nat, fingerprint: string) returns (accepted: bool)
      requires Valid() && id < |attempts| && Active(attempts[id])
      modifies this
      ensures Valid() && View() == Next(old(View()), Verify(id, fingerprint))
      ensures accepted <==> attempts[id].phase == Trusted
    {
      var a := attempts[id].(presented := Some(fingerprint));
      var rejection: Option<Reason> := None;
      accepted := false;
      if Truthy(a.known) {
        if fingerprint == a.known.value {
          accepted := true;
        } else {
          rejection := Some(Mismatch);
        }
      } else if Truthy(a.req.trust) && a.req.trust.value == fingerprint {
        accepted := true;
      } else {
        rejection := Some(UnknownKey);
      }
      attempts := attempts[id := a.(phase := if rejection.Some? then Refused(rejection.value) else Trusted)];
    }

    method Complete(id: nat)
      requires Valid() && id < |attempts| && attempts[id].phase == Trusted
      modifies this, store, store.disk
      ensures Valid() && View() == Next(old(View()), Ready(id))
    {
      var a := attempts[id];
      attempts := attempts[id := a.(phase := Opened)];
      if a.presented.Some? && !Truthy(a.known) {
        store.Add(KeyOf(a.req), a.presented.value);
      }
    }
  }

  // ---------------------------------------------------------------- safety

  /** Somebody's request confirmed this very fingerprint for this target, and the server
      presented it to that request. */
  ghost predicate Confirmed(attempts: seq<Attempt>, key: string, fingerprint: string) {
    exists i :: 0 <= i < |attempts| && ConfirmedBy(attempts[i], key, fingerprint)
  }

  predicate ConfirmedBy(a: Attempt, key: string, fingerprint: string) {
    KeyOf(a.req) == key && a.req.trust == Some(fingerprint) && a.presented == Some(fingerprint) && a.phase == Opened
  }

  ghost predicate Justified(loaded: Pins, attempts: seq<Attempt>, key: string, fingerprint: string) {
    (key in loaded && loaded[key] == fingerprint) || Confirmed(attempts, key, fingerprint)
  }

  predicate OpenedRightly(a: Attempt) {
    a.presented.Some?
    && if Truthy(a.known) then a.presented == a.known
       else a.presented == a.req.trust && a.presented.value != ""
  }

  ghost predicate Safe(loaded: Pins, g: Gateway) {
    && g.pins == Load(g.file)
    && (forall key :: key in g.pins ==> Justified(loaded, g.attempts, key, g.pins[key]))
    && (forall i :: 0 <= i < |g.attempts| ==> AttemptSafe(loaded, g.attempts, g.attempts[i]))
  }

  ghost predicate AttemptSafe(loaded: Pins, attempts: seq<Attempt>, a: Attempt) {
    && (a.phase in {Trusted, Opened} ==> OpenedRightly(a))
    && (a.known.Some? ==> Justified(loaded, attempts, KeyOf(a.req), a.known.value))
  }

  lemma ConfirmedGrows(before: seq<Attempt>, after: seq<Attempt>, key: string, fingerprint: string)
    requires Confirmed(before, key, fingerprint) && |before| <= |after|
    requires forall i :: 0 <= i < |before| && before[i].phase == Opened ==> after[i] == before[i]
    ensures Confirmed(after, key, fingerprint)
  {
    var i :| 0 <= i < |before| && ConfirmedBy(before[i], key, fingerprint);
    assert ConfirmedBy(after[i], key, fingerprint);
  }

  lemma JustifiedStays(loaded: Pins, g: Gateway, step: Step, key: string, fingerprint: string)
    requires Justified(loaded, g.attempts, key, fingerprint)
    ensures Justified(loaded, Next(g, step).attempts, key, fingerprint)
  {
    if Confirmed(g.attempts, key, fingerprint) {
      ConfirmedGrows(g.attempts, Next(g, step).attempts, key, fingerprint);
    }
  }

  lemma AttemptStaysSafe(loaded: Pins, g: Gateway, step: Step, i: nat)
    requires Safe(loaded, g) && i < |Next(g, step).attempts|
    ensures AttemptSafe(loaded, Next(g, step).attempts, Next(g, step).attempts[i])
  {
    if i < |g.attempts| {
      var a := g.attempts[i];
      assert AttemptSafe(loaded, g.attempts, a);
      if a.known.Some? { JustifiedStays(loaded, g, step, KeyOf(a.req), a.known.value); }
    } else {
      var key := KeyOf(step.req);
      if key in g.pins { JustifiedStays(loaded, g, step, key, g.pins[key]); }
    }
  }

  lemma PinStaysSafe(loaded: Pins, g: Gateway, step: Step, key: string)
    requires Safe(loaded, g) && key in Next(g, step).pins
    ensures Justified(loaded, Next(g, step).attempts, key, Next(g, step).pins[key])
  {
    var g' := Next(g, step);
    if key in g.pins && g'.pins[key] == g.pins[key] {
      JustifiedStays(loaded, g, step, key, g.pins[key]);
    } else {
      assert AttemptSafe(loaded, g.attempts, g.attempts[step.id]);
      assert ConfirmedBy(g'.attempts[step.id], key, g'.pins[key]);
    }
  }

  lemma StepSafe(loaded: Pins, g: Gateway, step: Step)
    requires Safe(loaded, g)
    ensures Safe(loaded, Next(g, step))
  {
    var g' := Next(g, step);
    forall key | key in g'.pins ensures Justified(loaded, g'.attempts, key, g'.pins[key]) {
      PinStaysSafe(loaded, g, step, key);
    }
    forall i | 0 <= i < |g'.attempts| ensures AttemptSafe(loaded, g'.attempts, g'.attempts[i]) {
      AttemptStaysSafe(loaded, g, step, i);
    }
  }

  /** Trust safety, under every interleaving of connections and restarts: every pin was loaded
      at the start or was confirmed by a request that carried it and was shown it by the server;
      every opened session presented the pin its attempt had read, or, where there was none,
      the fingerprint its own request confirmed; and file and memory agree. */
  lemma {:induction false} TrustSafety(file: PinFile, steps: seq<Step>)
    ensures Safe(Load(file), Run(file, steps))
  {
    if steps != [] {
      TrustSafety(file, steps[..|steps| - 1]);
      StepSafe(Load(file), Run(file, steps[..|steps| - 1]), steps[|steps| - 1]);
    }
  }

  // ---------------------------------------------------------------- stability

  /** No attempt for the same target is under way. */
  ghost predicate Alone(g: Gateway, req: Request) {
    forall i :: 0 <= i < |g.attempts| && Active(g.attempts[i]) ==> KeyOf(g.attempts[i].req) != KeyOf(req)
  }

  /** Connections to one target do not overlap: none starts while another is under way. */
  ghost predicate NoOverlap(file: PinFile, steps: seq<Step>) {
    steps == []
    || (var front, last := steps[..|steps| - 1], steps[|steps| - 1];
        NoOverlap(file, front) && (last.Start? ==> Alone(Run(file, front), last.req)))
  }

  /** At most one attempt per target is under way, and the pin it read is still the pin. */
  ghost predicate Sequential(g: Gateway) {
    && g.pins == Load(g.file)
    && (forall i :: 0 <= i < |g.attempts| && Active(g.attempts[i]) ==>
          g.attempts[i].known == Lookup(g.pins, KeyOf(g.attempts[i].req)))
    && (forall i, j :: 0 <= i < j < |g.attempts| && Active(g.attempts[i]) && Active(g.attempts[j]) ==>
          KeyOf(g.attempts[i].req) != KeyOf(g.attempts[j].req))
  }

  ghost predicate KeepsPins(g: Gateway, g': Gateway) {
    forall key :: Truthy(Lookup(g.pins, key)) ==> Lookup(g'.pins, key) == Lookup(g.pins, key)
  }

  lemma StepSequential(g: Gateway, step: Step)
    requires Sequential(g) && (step.Start? ==> Alone(g, step.req))
    ensures Sequential(Next(g, step)) && KeepsPins(g, Next(g, step))
  {
    match step
    case Start(req) => StartSequential(g, req);
    case Verify(id, fingerprint) => MovedSequential(g, step, id);
    case Fail(id) => MovedSequential(g, step, id);
    case Ready(id) => ReadySequential(g, id);
    case Restart =>
  }

  lemma StartSequential(g: Gateway, req: Request)
    requires Sequential(g) && Alone(g, req)
    ensures Sequential(Next(g, Start(req))) && KeepsPins(g, Next(g, Start(req)))
  {}

  lemma MovedSequential(g: Gateway, step: Step, id: nat)
    requires Sequential(g) && ((step.Verify? && step.id == id) || (step.Fail? && step.id == id))
    ensures Sequential(Next(g, step)) && KeepsPins(g, Next(g, step))
  {
    var g' := Next(g, step);
    assert g'.pins == g.pins && |g'.attempts| == |g.attempts|;
    forall i | 0 <= i < |g.attempts|
      ensures g'.attempts[i].req == g.attempts[i].req && g'.attempts[i].known == g.attempts[i].known
      ensures Active(g'.attempts[i]) ==> Active(g.attempts[i])
    {}
  }

  lemma ReadySequential(g: Gateway, id: nat)
    requires Sequential(g)
    ensures Sequential(Next(g, Ready(id))) && KeepsPins(g, Next(g, Ready(id)))
  {
    var g' := Next(g, Ready(id));
    if g' != g {
      var key := KeyOf(g.attempts[id].req);
      assert g.attempts[id].known == Lookup(g.pins, key);
      forall i | 0 <= i < |g'.attempts| && Active(g'.attempts[i])
        ensures g'.attempts[i].known == Lookup(g'.pins, KeyOf(g'.attempts[i].req))
      {
        assert i != id && Active(g.attempts[i]);
        assert KeyOf(g.attempts[i].req) != key;
      }
    }
  }

  lemma {:induction false} RunSequential(file: PinFile, steps: seq<Step>)
    requires NoOverlap(file, steps)
    ensures Sequential(Run(file, steps))
  {
    if steps != [] {
      var front := steps[..|steps| - 1];
      RunSequential(file, front);
      StepSequential(Run(file, front), steps[|steps| - 1]);
    }
  }

  lemma KeepsPinsChain(g0: Gateway, g1: Gateway, g2: Gateway)
    requires KeepsPins(g0, g1) && KeepsPins(g1, g2)
    ensures KeepsPins(g0, g2)
  {}

  /** Pin stability: when connections to one target do not overlap, a pin once set is never
      changed by anything that follows, restarts included. */
  lemma {:induction false} PinStability(file: PinFile, steps: seq<Step>, n: nat)
    requires NoOverlap(file, steps) && n <= |steps|
    ensures KeepsPins(Run(file, steps[..n]), Run(file, steps))
    decreases |steps|
  {
    if n == |steps| {
      assert steps[..n] == steps;
    } else {
      var front := steps[..|steps| - 1];
      assert front[..n] == steps[..n];
      PinStability(file, front, n);
      RunSequential(file, front);
      StepSequential(Run(file, front), steps[|steps| - 1]);
      KeepsPinsChain(Run(file, steps[..n]), Run(file, front), Run(file, steps));
    }
  }

  /** In general, finishing an attempt leaves an existing pin as it is if and only if the
      attempt had read a pin when it started, or the server presented the pinned key. */
  lemma FinishKeepsPin(g: Gateway, id: nat)
    requires id < |g.attempts| && g.attempts[id].phase == Trusted && g.attempts[id].presented.Some?
    requires Truthy(Lookup(g.pins, KeyOf(g.attempts[id].req)))
    ensures var a := g.attempts[id];
            Lookup(Next(g, Ready(id)).pins, KeyOf(a.req)) == Lookup(g.pins, KeyOf(a.req))
            <==> Truthy(a.known) || a.presented == Lookup(g.pins, KeyOf(a.req))
  {}

  /** Without the condition pins are not stable: two overlapping first connections that confirm
      different keys both open, and the second overwrites the pin of the first. */
  lemma OverlapOverwrites(host: string, first: string, second: string)
    requires first != "" && second != "" && first != second
    ensures var r1, r2 := Request(host, None, Some(first)), Request(host, None, Some(second));
            var bothStarted := Next(Next(Boot(Missing), Start(r1)), Start(r2));
            var firstOpen := Next(Next(bothStarted, Verify(0, first)), Ready(0));
            var secondOpen := Next(Next(firstOpen, Verify(1, second)), Ready(1));
            && Lookup(firstOpen.pins, KeyOf(r1)) == Some(first)
            && Lookup(secondOpen.pins, KeyOf(r1)) == Some(second)
            && (forall a :: a in secondOpen.attempts ==> a.phase == Opened)
  {
    var r1, r2 := Request(host, None, Some(first)), Request(host, None, Some(second));
    var key := KeyOf(r1);
    var a1, a2 := Attempt(r1, None, None, Connecting), Attempt(r2, None, None, Connecting);
    var b1, b2 := Attempt(r1, None, Some(first), Trusted), Attempt(r2, None, Some(second), Trusted);
    var c1, c2 := b1.(phase := Opened), b2.(phase := Opened);
    var bothStarted := Next(Next(Boot(Missing), Start(r1)), Start(r2));
    assert bothStarted == Gateway(map[], Missing, [a1, a2]);
    var firstOpen := Next(Next(bothStarted, Verify(0, first)), Ready(0));
    var pins := map[key := first];
    assert firstOpen == Gateway(pins, Json(pins), [c1, a2]);
    var secondOpen := Next(Next(firstOpen, Verify(1, second)), Ready(1));
    assert secondOpen.attempts == [c1, c2];
  }

  // ---------------------------------------------------------------- what one connection does

  /** A connection with nothing in between: the server presents `fingerprint`, and if that is
      accepted, authentication succeeds. */
  function Connected(g: Gateway, req: Request, fingerprint: string): Gateway {
    Next(Next(Next(g, Start(req)), Verify(|g.attempts|, fingerprint)), Ready(|g.attempts|))
  }

  /** A target with a pin: the connection opens if and only if the server presents the pinned key,
      whatever the request confirms; otherwise it is refused as a mismatch. The pins stay. */
  lemma PinnedTarget(g: Gateway, req: Request, fingerprint: string)
    requires KeyOf(req) in g.pins && g.pins[KeyOf(req)] != ""
    ensures var g' := Connected(g, req, fingerprint);
            var phase := g'.attempts[|g.attempts|].phase;
            && (phase == Opened <==> fingerprint == g.pins[KeyOf(req)])
            && (phase != Opened ==> phase == Refused(Mismatch))
            && g'.pins == g.pins && g'.file == g.file
  {}

  /** A target without one: it opens, and the key is pinned, if and only if the request confirms
      this very key; otherwise it is refused as unknown and nothing is pinned. */
  lemma UnknownTarget(g: Gateway, req: Request, fingerprint: string)
    requires KeyOf(req) in g.pins ==> g.pins[KeyOf(req)] == ""
    ensures var g' := Connected(g, req, fingerprint);
            var phase := g'.attempts[|g.attempts|].phase;
            && (phase == Opened <==> fingerprint != "" && req.trust == Some(fingerprint))
            && (phase == Opened ==> g'.pins == g.pins[KeyOf(req) := fingerprint] && g'.file == Json(g'.pins))
            && (phase != Opened ==> phase == Refused(UnknownKey) && g'.pins == g.pins && g'.file == g.file)
  {}

  /** A request without a port is one for port 22. */
  lemma DefaultPort(host: string, trust: Option<string>)
    ensures KeyOf(Request(host, None, trust)) == KeyOf(Request(host, Some(22), trust)) == host + ":22"
  {
    assert Print(22, 10) == "22";
  }

  /** A key confirmed once is remembered: after a restart, the same target opens with that key
      without being asked for, and with no other. */
  lemma Remembered(g: Gateway, first: Request, fingerprint: string, again: Request, presented: string)
    requires KeyOf(first) in g.pins ==> g.pins[KeyOf(first)] == ""
    requires fingerprint != "" && first.trust == Some(fingerprint) && KeyOf(again) == KeyOf(first)
    ensures var later := Next(Connected(g, first, fingerprint), Restart);
            var phase := Connected(later, again, presented).attempts[|later.attempts|].phase;
            phase == (if presented == fingerprint then Opened else Refused(Mismatch))
  {
    UnknownTarget(g, first, fingerprint);
    PinnedTarget(Next(Connected(g, first, fingerprint), Restart), again, presented);
  }

  /** A restart: the pins are those of the file, or none if there is no readable file; attempts
      under way are lost, the others are as they were. */
  lemma RestartExact(g: Gateway, i: nat)
    requires i < |g.attempts|
    ensures var g' := Next(g, Restart);
            && (g.file.Json? ==> g'.pins == g.file.pins) && (!g.file.Json? ==> g'.pins == map[])
            && g'.file == g.file && |g'.attempts| == |g.attempts|
            && g'.attempts[i] == if g.attempts[i].phase in {Connecting, Trusted} then g.attempts[i].(phase := Failed)
                                 else g.attempts[i]
  {}

  /** An attempt that fails on the way, even after its key was accepted, never opens and pins
      nothing; one that has come to an end cannot fail any more. */
  lemma FailExact(g: Gateway, id: nat, fingerprint: string)
    requires id < |g.attempts|
    ensures var g' := Next(g, Fail(id));
            && g'.pins == g.pins && g'.file == g.file
            && g'.attempts == g.attempts[id := g'.attempts[id]]
            && g'.attempts[id] == (if g.attempts[id].phase in {Connecting, Trusted} then g.attempts[id].(phase := Failed)
                                   else g.attempts[id])
            && (g.attempts[id].phase != Opened ==>
                  Next(Next(g', Verify(id, fingerprint)), Ready(id)) == g')
  {}
}
