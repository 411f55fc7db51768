/** The transparency log: every command that runs is recorded when it ends, returned or thrown,
    however many are in flight; and the passwords that elevation feeds to commands leave no
    trace in it. */
module Transparency {
  import opened Text
  import Adapter

  /** How one execution ended. */
  datatype Ending = Returned(exitCode: Option<int>) | Threw(message: string)

  datatype CommandRecord = CommandRecord(
    id: nat, command: string, host: string, startedAt: int, durationMs: int, ending: Ending)

  datatype Log = Log(entries: seq<CommandRecord>, nextId: nat)

  const EMPTY := Log([], 1)

  function Recorded(log: Log, command: string, host: string, startedAt: int, now: int, ending: Ending): Log {
    Log(log.entries + [CommandRecord(log.nextId, command, host, startedAt, now - startedAt, ending)], log.nextId + 1)
  }

  class TransparencyLog {
    var entries: seq<CommandRecord>
    var nextId: nat

    function View(): Log
      reads this
    {
      Log(entries, nextId)
    }

    constructor ()
      ensures View() == EMPTY
    {
      entries, nextId := [], 1;
    }

    method Record(command: string, host: string, startedAt: int, now: int, ending: Ending)
      returns (full: CommandRecord)
      modifies this
      ensures View() == Recorded(old(View()), command, host, startedAt, now, ending)
      ensures entries == old(entries) + [full]
    {
      full := CommandRecord(nextId, command, host, startedAt, now - startedAt, ending);
      nextId := nextId + 1;
      entries := entries + [full];
    }
  }

  // ---------------------------------------------------------------- overlapping executions

  datatype Execution = Execution(command: string, host: string, startedAt: int, endedAt: int, ending: Option<Ending>)

  /** The log with every execution begun so far, and the order in which they ended. */
  datatype Traffic = Traffic(log: Log, executions: seq<Execution>, finished: seq<nat>)

  datatype Event =
    | Begin(command: string, host: string, now: int)
    | Finish(execution: nat, ending: Ending, now: int)

  function Next(t: Traffic, e: Event): Traffic {
    match e
    case Begin(command, host, now) => t.(executions := t.executions + [Execution(command, host, now, now, None)])
    case Finish(i, ending, now) =>
      if i < |t.executions| && t.executions[i].ending.None? then
        var x := t.executions[i];
        Traffic(Recorded(t.log, x.command, x.host, x.startedAt, now, ending),
                t.executions[i := x.(endedAt := now, ending := Some(ending))],
                t.finished + [i])
      else t
  }

  function Reach(events: seq<Event>): Traffic {
    if events == [] then Traffic(EMPTY, [], []) else Next(Reach(events[..|events| - 1]), events[|events| - 1])
  }

  /** The record of an execution. */
  predicate Records(r: CommandRecord, x: Execution) {
    && r.command == x.command && r.host == x.host && Some(r.ending) == x.ending
    && r.startedAt == x.startedAt && r.startedAt + r.durationMs == x.endedAt
  }

  ghost predicate Exact(t: Traffic) {
    && t.log.nextId == |t.log.entries| + 1
    && (forall k :: 0 <= k < |t.log.entries| ==> t.log.entries[k].id == k + 1)
    && |t.finished| == |t.log.entries|
    && (forall k :: 0 <= k < |t.finished| ==>
          t.finished[k] < |t.executions| && Records(t.log.entries[k], t.executions[t.finished[k]]))
    && (forall k, m :: 0 <= k < m < |t.finished| ==> t.finished[k] != t.finished[m])
    && (forall i :: 0 <= i < |t.executions| && t.executions[i].ending.Some? ==> i in t.finished)
  }

  /** Log exactness under overlap: the ids are 1, 2, ... in list order, and records and finished
      executions correspond one to one, with the same command, host and ending. */
  lemma {:induction false} LogIsExact(events: seq<Event>)
    ensures Exact(Reach(events))
  {
    if events != [] {
      var front, e := events[..|events| - 1], events[|events| - 1];
      LogIsExact(front);
      StepExact(Reach(front), e);
    }
  }

  lemma BeginExact(t: Traffic, e: Event)
    requires Exact(t) && e.Begin?
    ensures Exact(Next(t, e))
  {
    var t' := Next(t, e);
    forall i | 0 <= i < |t'.executions| && t'.executions[i].ending.Some? ensures i in t'.finished {
      assert t'.executions[i] == t.executions[i];
    }
  }

  lemma FinishExact(t: Traffic, e: Event)
    requires Exact(t) && e.Finish? && e.execution < |t.executions| && t.executions[e.execution].ending.None?
    ensures Exact(Next(t, e))
  {
    var t', n := Next(t, e), |t.finished|;
    assert t'.finished[n] == e.execution;
    forall i | 0 <= i < |t'.executions| && t'.executions[i].ending.Some? ensures i in t'.finished {
      if i != e.execution { assert i in t.finished; }
    }
    forall k | 0 <= k < n ensures t.finished[k] != e.execution {
      assert Records(t.log.entries[k], t.executions[t.finished[k]]);
    }
  }

  lemma StepExact(t: Traffic, e: Event)
    requires Exact(t)
    ensures Exact(Next(t, e))
  {
    if e.Begin? {
      BeginExact(t, e);
    } else if e.execution < |t.executions| && t.executions[e.execution].ending.None? {
      FinishExact(t, e);
    }
  }

  /** Append-only: every earlier list is a prefix of every later one. */
  lemma {:induction false} LogOnlyGrows(events: seq<Event>, n: nat)
    requires n <= |events|
    ensures Reach(events[..n]).log.entries <= Reach(events).log.entries
    decreases |events|
  {
    if n == |events| {
      assert events[..n] == events;
    } else {
      var front := events[..|events| - 1];
      assert front[..n] == events[..n];
      LogOnlyGrows(front, n);
    }
  }

  // ---------------------------------------------------------------- executors

  /** The executors that a capability call can run on. */
  datatype Executor =
    | Ssh(user: string)
    | Transparent(inner: Executor, host: string)         // withTransparency
    | Elevating(inner: Executor, password: string)       // withElevation

  /** What reaches the host: a command line and its standard input. */
  datatype Wire = Wire(user: string, command: string, input: Option<string>)

  /** A host's answer to one command, and the clock before and after. */
  datatype Reply = Reply(ending: Ending, stdout: string, stderr: string, startedAt: int, now: int)

  /** `exec(command, input)` on an executor: what reaches the host, and the log afterwards. A
      transparent layer holds the input and passes it on; an elevating one puts its own. */
  function Execute(x: Executor, command: string, input: Option<string>, reply: Reply, log: Log): (Wire, Log) {
    match x
    case Ssh(user) => (Wire(user, command, input), log)
    case Transparent(inner, host) =>
      var (wire, log') := Execute(inner, command, input, reply, log);
      (wire, Recorded(log', command, host, reply.startedAt, reply.now, reply.ending))
    case Elevating(inner, password) =>
      Execute(inner, Adapter.Elevated(command), Some(password + "\n"), reply, log)
  }

  /** An adapter call is a strategy: given the replies so far, the next command, if any. */
  type Strategy = seq<Reply> -> Option<string>

  datatype Elevate = NoElevation | Current(password: string) | OtherUser(user: string, password: string)

  datatype Call = Call(strategy: Strategy, elevate: Elevate)

  /** The session the calls belong to: who is connected where. */
  datatype Session = Session(user: string, address: string)

  /** `makeElevated`: which executor is wrapped by which. */
  function ExecutorFor(s: Session, elevate: Elevate): Executor {
    var base := Transparent(Ssh(s.user), s.user + "@" + s.address);
    match elevate
    case NoElevation => base
    case Current(password) => Elevating(base, password)
    case OtherUser(user, password) =>
      var other := Transparent(Ssh(user), user + "@" + s.address);
      if user == "root" then other else Elevating(other, password)
  }

  /** The log, what went over the wire, and the replies not yet used. */
  datatype Progress = Progress(log: Log, wires: seq<Wire>, replies: seq<Reply>)

  function Perform(x: Executor, strategy: Strategy, seen: seq<Reply>, p: Progress): Progress
    decreases |p.replies|
  {
    match strategy(seen)
    case None => p
    case Some(command) =>
      if p.replies == [] then p
      else
        var reply := p.replies[0];
        var (wire, log) := Execute(x, command, None, reply, p.log);
        Perform(x, strategy, seen + [reply], Progress(log, p.wires + [wire], p.replies[1..]))
  }

  function PerformAll(s: Session, calls: seq<Call>, p: Progress): Progress
    decreases |calls|
  {
    if calls == [] then p
    else PerformAll(s, calls[1..], Perform(ExecutorFor(s, calls[0].elevate), calls[0].strategy, [], p))
  }

  // ---------------------------------------------------------------- two runs

  /** The same up to passwords. */
  predicate Alike(x: Executor, y: Executor) {
    match (x, y)
    case (Ssh(u), Ssh(v)) => u == v
    case (Transparent(a, g), Transparent(b, h)) => g == h && Alike(a, b)
    case (Elevating(a, _), Elevating(b, _)) => Alike(a, b)
    case _ => false
  }

  predicate AlikeElevate(a: Elevate, b: Elevate) {
    (a.NoElevation? && b.NoElevation?) || (a.Current? && b.Current?) || (a.OtherUser? && b.OtherUser? && a.user == b.user)
  }

  ghost predicate AlikeCalls(calls: seq<Call>, calls': seq<Call>) {
    |calls| == |calls'| && forall i :: 0 <= i < |calls| ==>
      calls[i].strategy == calls'[i].strategy && AlikeElevate(calls[i].elevate, calls'[i].elevate)
  }

  /** The same user and command line; the input alone may differ. */
  predicate AlikeWires(a: seq<Wire>, b: seq<Wire>) {
    |a| == |b| && forall i :: 0 <= i < |a| ==> a[i].user == b[i].user && a[i].command == b[i].command
  }

  /** Whatever inputs two executors that differ in passwords are given, the host sees the same
      command line, and the logs come out the same. */
  lemma {:induction false} ExecuteAlike(x: Executor, y: Executor, command: string, input: Option<string>, input': Option<string>, reply: Reply, log: Log)
    requires Alike(x, y)
    ensures var (wire, log1) := Execute(x, command, input, reply, log);
            var (wire', log2) := Execute(y, command, input', reply, log);
            log1 == log2 && wire.user == wire'.user && wire.command == wire'.command
  {
    match x
    case Ssh(_) =>
    case Transparent(inner, _) => ExecuteAlike(inner, y.inner, command, input, input', reply, log);
    case Elevating(inner, password) =>
      ExecuteAlike(inner, y.inner, Adapter.Elevated(command), Some(password + "\n"), Some(y.password + "\n"), reply, log);
  }

  lemma {:induction false} PerformAlike(x: Executor, y: Executor, strategy: Strategy, seen: seq<Reply>, p: Progress, q: Progress)
    requires Alike(x, y) && p.log == q.log && p.replies == q.replies && AlikeWires(p.wires, q.wires)
    ensures var p', q' := Perform(x, strategy, seen, p), Perform(y, strategy, seen, q);
            p'.log == q'.log && p'.replies == q'.replies && AlikeWires(p'.wires, q'.wires)
    decreases |p.replies|
  {
    match strategy(seen)
    case None =>
    case Some(command) =>
      if p.replies != [] {
        var reply := p.replies[0];
        ExecuteAlike(x, y, command, None, None, reply, p.log);
        var (wire, log) := Execute(x, command, None, reply, p.log);
        var (wire', log') := Execute(y, command, None, reply, q.log);
        PerformAlike(x, y, strategy, seen + [reply],
                     Progress(log, p.wires + [wire], p.replies[1..]),
                     Progress(log', q.wires + [wire'], q.replies[1..]));
      }
  }

  /** Independence of the password: two runs of any sequence of calls that differ only in
      their elevation passwords, and get the same replies, leave identical logs and send
      identical command lines, whichever calls are elevated and as whom. */
  lemma {:induction false} PasswordLeavesNoTrace(s: Session, calls: seq<Call>, calls': seq<Call>, p: Progress, q: Progress)
    requires AlikeCalls(calls, calls')
    requires p.log == q.log && p.replies == q.replies && AlikeWires(p.wires, q.wires)
    ensures var p', q' := PerformAll(s, calls, p), PerformAll(s, calls', q);
            p'.log == q'.log && p'.replies == q'.replies && AlikeWires(p'.wires, q'.wires)
    decreases |calls|
  {
    if calls != [] {
      var x, y := ExecutorFor(s, calls[0].elevate), ExecutorFor(s, calls'[0].elevate);
      assert Alike(x, y);
      PerformAlike(x, y, calls[0].strategy, [], p, q);
      PasswordLeavesNoTrace(s, calls[1..], calls'[1..],
                            Perform(x, calls[0].strategy, [], p), Perform(y, calls'[0].strategy, [], q));
    }
  }

  /** The password does reach the host, on standard input, exactly where sudo reads it. */
  lemma PasswordReachesStdin(s: Session, elevate: Elevate, command: string, reply: Reply, log: Log)
    ensures var wire := Execute(ExecutorFor(s, elevate), command, None, reply, log).0;
            && (elevate.Current? || (elevate.OtherUser? && elevate.user != "root") ==>
                  wire.command == Adapter.Elevated(command) && wire.input == Some(elevate.password + "\n"))
            && (elevate.NoElevation? || (elevate.OtherUser? && elevate.user == "root") ==>
                  wire.command == command && wire.input == None)
            && wire.user == (if elevate.OtherUser? then elevate.user else s.user)
  {
    var x := ExecutorFor(s, elevate);
    if x.Elevating? { ElevatedExecute(x, command, reply, log); }
  }

  /** Sudo over one transparent layer over the transport. */
  lemma ElevatedExecute(x: Executor, command: string, reply: Reply, log: Log)
    requires x.Elevating? && x.inner.Transparent? && x.inner.inner.Ssh?
    ensures Execute(x, command, None, reply, log)
         == (Wire(x.inner.inner.user, Adapter.Elevated(command), Some(x.password + "\n")),
             Recorded(log, Adapter.Elevated(command), x.inner.host, reply.startedAt, reply.now, reply.ending))
  {
    var text, input := Adapter.Elevated(command), Some(x.password + "\n");
    assert Execute(x, command, None, reply, log) == Execute(x.inner, text, input, reply, log);
    assert Execute(x.inner.inner, text, input, reply, log) == (Wire(x.inner.inner.user, text, input), log);
  }

  /** Every executor the gateway builds records each command exactly once, as it was sent. */
  lemma EveryCommandIsLogged(s: Session, elevate: Elevate, command: string, reply: Reply, log: Log)
    ensures var (wire, log') := Execute(ExecutorFor(s, elevate), command, None, reply, log);
            log' == Recorded(log, wire.command, wire.user + "@" + s.address, reply.startedAt, reply.now, reply.ending)
  {
    var x := ExecutorFor(s, elevate);
    if x.Elevating? { ElevatedExecute(x, command, reply, log); }
  }

  // ---------------------------------------------------------------- what goes over the wire

  /** The replies that a strategy uses up, given those it has seen. */
  function Used(strategy: Strategy, seen: seq<Reply>, replies: seq<Reply>): nat
    decreases |replies|
  {
    if replies == [] || strategy(seen).None? then 0
    else 1 + Used(strategy, seen + [replies[0]], replies[1..])
  }

  lemma {:induction false} UsedBound(strategy: Strategy, seen: seq<Reply>, replies: seq<Reply>)
    ensures Used(strategy, seen, replies) <= |replies|
    decreases |replies|
  {
    if replies != [] && strategy(seen).Some? { UsedBound(strategy, seen + [replies[0]], replies[1..]); }
  }

  /** The `k`-th command of a call, if it is sent, is what the strategy says to the first `k`
      replies, and goes out as its executor sends it. */
  predicate SentRightly(x: Executor, strategy: Strategy, seen: seq<Reply>, replies: seq<Reply>, wires: seq<Wire>) {
    forall k :: 0 <= k < |wires| && k < |replies| ==>
      && strategy(seen + replies[..k]).Some?
      && wires[k] == Execute(x, strategy(seen + replies[..k]).value, None, replies[k], EMPTY).0
  }

  lemma {:induction false} WireIgnoresLog(x: Executor, command: string, input: Option<string>, reply: Reply, log: Log, log': Log)
    ensures Execute(x, command, input, reply, log).0 == Execute(x, command, input, reply, log').0
  {
    match x
    case Ssh(_) =>
    case Transparent(inner, _) => WireIgnoresLog(inner, command, input, reply, log, log');
    case Elevating(inner, password) =>
      WireIgnoresLog(inner, Adapter.Elevated(command), Some(password + "\n"), reply, log, log');
  }

  /** A call sends its commands in order, each decided by the replies to those before it, until it
      has no more or the host answers no more; it uses one reply for each. */
  lemma {:induction false} CallSends(x: Executor, strategy: Strategy, seen: seq<Reply>, p: Progress)
    ensures var p', n := Perform(x, strategy, seen, p), Used(strategy, seen, p.replies);
            && n <= |p.replies| && p'.replies == p.replies[n..]
            && |p'.wires| == |p.wires| + n && p.wires <= p'.wires
            && SentRightly(x, strategy, seen, p.replies, p'.wires[|p.wires|..])
            && (n < |p.replies| ==> strategy(seen + p.replies[..n]).None?)
    decreases |p.replies|
  {
    UsedBound(strategy, seen, p.replies);
    if strategy(seen).Some? && p.replies != [] {
      var reply := p.replies[0];
      var (wire, log) := Execute(x, strategy(seen).value, None, reply, p.log);
      var q := Progress(log, p.wires + [wire], p.replies[1..]);
      CallSends(x, strategy, seen + [reply], q);
      WireIgnoresLog(x, strategy(seen).value, None, reply, p.log, EMPTY);
      SentMore(x, strategy, seen, p, q, Perform(x, strategy, seen + [reply], q));
    } else {
      assert seen + p.replies[..0] == seen && p.replies[0..] == p.replies;
    }
  }

  lemma SentMore(x: Executor, strategy: Strategy, seen: seq<Reply>, p: Progress, q: Progress, p': Progress)
    requires p.replies != [] && strategy(seen).Some?
    requires q.replies == p.replies[1..] && |q.wires| == |p.wires| + 1 && p.wires <= q.wires <= p'.wires
    requires q.wires[|p.wires|] == Execute(x, strategy(seen).value, None, p.replies[0], EMPTY).0
    requires SentRightly(x, strategy, seen + [p.replies[0]], q.replies, p'.wires[|q.wires|..])
    ensures SentRightly(x, strategy, seen, p.replies, p'.wires[|p.wires|..])
    ensures forall n :: 0 < n <= |p.replies| ==> seen + p.replies[..n] == seen + [p.replies[0]] + q.replies[..n - 1]
  {
    var wires, later := p'.wires[|p.wires|..], p'.wires[|q.wires|..];
    forall n | 0 < n <= |p.replies| ensures seen + p.replies[..n] == seen + [p.replies[0]] + q.replies[..n - 1] {
      assert p.replies[..n] == [p.replies[0]] + q.replies[..n - 1];
    }
    forall k | 0 <= k < |wires| && k < |p.replies|
      ensures strategy(seen + p.replies[..k]).Some?
      ensures wires[k] == Execute(x, strategy(seen + p.replies[..k]).value, None, p.replies[k], EMPTY).0
    {
      if k == 0 {
        assert seen + p.replies[..0] == seen;
      } else {
        assert wires[k] == later[k - 1] && p.replies[k] == q.replies[k - 1];
      }
    }
  }

  // ---------------------------------------------------------------- one execution

  /** An execution begun and ended, with anything in between that leaves it alone, adds one record:
      the next id, what was run where and when, how long it took and how it ended; a second end
      of it adds nothing. */
  lemma ExecutionLogged(t: Traffic, command: string, host: string, started: int, more: seq<Event>, ending: Ending, now: int)
    requires t.log.nextId == |t.log.entries| + 1
    requires forall e :: e in more && e.Finish? ==> e.execution != |t.executions|
    ensures var i, between := |t.executions|, After(Next(t, Begin(command, host, started)), more);
            var ended := Next(between, Finish(i, ending, now));
            && ended.log.entries == between.log.entries
                                    + [CommandRecord(|between.log.entries| + 1, command, host, started, now - started, ending)]
            && ended.finished == between.finished + [i]
            && Next(ended, Finish(i, ending, now)) == ended
  {
    Untouched(Next(t, Begin(command, host, started)), more, |t.executions|);
  }

  function After(t: Traffic, events: seq<Event>): Traffic {
    if events == [] then t else Next(After(t, events[..|events| - 1]), events[|events| - 1])
  }

  lemma {:induction false} Untouched(t: Traffic, more: seq<Event>, i: nat)
    requires i < |t.executions| && t.log.nextId == |t.log.entries| + 1
    requires forall e :: e in more && e.Finish? ==> e.execution != i
    ensures var last := After(t, more);
            i < |last.executions| && last.executions[i] == t.executions[i] && last.log.nextId == |last.log.entries| + 1
  {
    if more != [] {
      var front := more[..|more| - 1];
      assert forall e :: e in front ==> e in more;
      Untouched(t, front, i);
      assert more[|more| - 1] in more;
    }
  }
}
