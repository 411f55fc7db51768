/** The elevation dialog: an action that was denied for lack of privilege is retried with
    credentials, and the promise of its run is resolved through references that all runs
    share. Network replies and clicks are events; any number of retries may be in flight. */
module Elevation {
  import opened Text

  datatype Stage = Modal1 | NoticeCan | NoticeCannot | Modal2

  /** How an action ended; `denied` tells whether the reason reads like a privilege error. */
  datatype Kind = Succeeded | Rejected(denied: bool) | OtherEnd

  /** A result, with the run whose action produced it and whether it ran elevated. Cancelled
      is the fallback that `cancel` would deliver if there were no last result. */
  datatype Result = Result(kind: Kind, run: nat, elevated: bool) | Cancelled

  datatype Privilege = Privilege(isRoot: bool, canSudo: bool, escalationAvailable: bool)

  datatype RunPhase = Acting | Probing(first: Result) | Handed

  /** One call of `run`: how far it is, and every value its promise was resolved with. */
  datatype RunState = RunState(phase: RunPhase, resolutions: seq<Result>)

  /** The cells and references of the hook, the runs, and the retries in flight (each with the
      run whose action it calls). */
  datatype Dialog = Dialog(
    stage: Option<Stage>,
    action: Option<nat>,
    resolver: Option<nat>,
    last: Option<Result>,
    transitioning: bool,
    busy: bool,
    runs: seq<RunState>,
    inFlight: multiset<nat>)

  datatype Event =
    | StartRun
    | FirstResult(run: nat, kind: Kind)
    | Probe(run: nat, privilege: Option<Privilege>)
    | HaveAdmin
    | Cancel
    | Apply
    | RetryResult(run: nat, outcome: Option<Kind>)  // None: the retry threw

  const IDLE := Dialog(None, None, None, None, false, false, [], multiset{})

  // ---------------------------------------------------------------- transitions

  function Resolve(d: Dialog, run: nat, r: Result): Dialog {
    if run < |d.runs| then
      d.(runs := d.runs[run := d.runs[run].(resolutions := d.runs[run].resolutions + [r])])
    else d
  }

  /** `resolveRef.current?.(r)`. */
  function ResolveCurrent(d: Dialog, r: Result): Dialog {
    if d.resolver.Some? then Resolve(d, d.resolver.value, r) else d
  }

  /** `reset`; the transition flag is left as it is. */
  function Reset(d: Dialog): Dialog {
    d.(stage := None, action := None, resolver := None, last := None, busy := false)
  }

  function StageFor(p: Privilege): Stage {
    if p.canSudo && !p.isRoot then Modal1 else if p.escalationAvailable then NoticeCan else NoticeCannot
  }

  function SetPhase(d: Dialog, run: nat, phase: RunPhase): Dialog
    requires run < |d.runs|
  {
    d.(runs := d.runs[run := d.runs[run].(phase := phase)])
  }

  function Next(d: Dialog, e: Event): Dialog {
    match e
    case StartRun => d.(runs := d.runs + [RunState(Acting, [])])
    case FirstResult(run, kind) =>
      if run < |d.runs| && d.runs[run].phase == Acting then
        var r := Result(kind, run, false);
        if kind.Rejected? && kind.denied then SetPhase(d, run, Probing(r))
        else Resolve(SetPhase(d, run, Handed), run, r)
      else d
    case Probe(run, privilege) =>
      if run < |d.runs| && d.runs[run].phase.Probing? then
        var r := d.runs[run].phase.first;
        var d' := SetPhase(d, run, Handed);
        if privilege.None? then Resolve(d', run, r)
        else d'.(action := Some(run), resolver := Some(run), last := Some(r), stage := Some(StageFor(privilege.value)))
      else d
    case HaveAdmin =>
      if d.stage == Some(NoticeCan) then d.(transitioning := true, stage := Some(Modal2)) else d
    case Cancel =>
      if d.transitioning then d.(transitioning := false)
      else Reset(ResolveCurrent(d, if d.last.Some? then d.last.value else Cancelled))
    case Apply =>
      if d.action.Some? && d.stage in {Some(Modal1), Some(Modal2)} then
        d.(busy := true, inFlight := d.inFlight + multiset{d.action.value})
      else d
    case RetryResult(run, outcome) =>
      if run in d.inFlight then
        var d' := d.(inFlight := d.inFlight - multiset{run}, busy := false);
        if outcome == Some(Succeeded) then Reset(ResolveCurrent(d', Result(Succeeded, run, true))) else d'
      else d
  }

  function From(d: Dialog, events: seq<Event>): Dialog {
    if events == [] then d else Next(From(d, events[..|events| - 1]), events[|events| - 1])
  }

  function Reach(events: seq<Event>): Dialog { From(IDLE, events) }

  /** The hook's references and cells as an object. */
  class ElevationRunner {
    var stage: Option<Stage>
    var action: Option<nat>
    var resolver: Option<nat>
    var last: Option<Result>
    var transitioning: bool
    var busy: bool
    var runs: seq<RunState>
    var inFlight: multiset<nat>

    function View(): Dialog
      reads this
    {
      Dialog(stage, action, resolver, last, transitioning, busy, runs, inFlight)
    }

    constructor ()
      ensures View() == IDLE
    {
      stage, action, resolver, last := None, None, None, None;
      transitioning, busy, runs, inFlight := false, false, [], multiset{};
    }

    method Settle(run: nat, r: Result)
      requires run < |runs|
      modifies this`runs
      ensures View() == Resolve(old(View()), run, r)
    {
      runs := runs[run := runs[run].(resolutions := runs[run].resolutions + [r])];
    }

    method ResetCells()
      modifies this
      ensures View() == Reset(old(View()))
    {
      stage, busy := None, false;
      action, resolver, last := None, None, None;
    }

    method SettleCurrent(r: Result)
      requires resolver.Some? ==> resolver.value < |runs|
      modifies this`runs
      ensures View() == ResolveCurrent(old(View()), r)
    {
      if resolver.Some? {
        Settle(resolver.value, r);
      }
    }

    method CancelDialog()
      requires resolver.Some? ==> resolver.value < |runs|
      modifies this
      ensures View() == Next(old(View()), Cancel)
    {
      if transitioning {
        transitioning := false;
        return;
      }
      SettleCurrent(if last.Some? then last.value else Cancelled);
      ResetCells();
    }

    method FirstReturned(run: nat, kind: Kind)
      requires run < |runs| && runs[run].phase == Acting
      modifies this
      ensures View() == Next(old(View()), FirstResult(run, kind))
    {
      var r := Result(kind, run, false);
      if kind.Rejected? && kind.denied {
        runs := runs[run := runs[run].(phase := Probing(r))];
      } else {
        runs := runs[run := runs[run].(phase := Handed)];
        Settle(run, r);
      }
    }

    method ProbeReturned(run: nat, privilege: Option<Privilege>)
      requires run < |runs| && runs[run].phase.Probing?
      modifies this
      ensures View() == Next(old(View()), Probe(run, privilege))
    {
      var r := runs[run].phase.first;
      runs := runs[run := runs[run].(phase := Handed)];
      if privilege.None? {
        Settle(run, r);
        return;
      }
      action, resolver, last := Some(run), Some(run), Some(r);
      var p := privilege.value;
      if p.canSudo && !p.isRoot {
        stage := Some(Modal1);
      } else if p.escalationAvailable {
        stage := Some(NoticeCan);
      } else {
        stage := Some(NoticeCannot);
      }
    }

    method ApplyCredentials()
      requires stage in {Some(Modal1), Some(Modal2)}
      modifies this
      ensures View() == Next(old(View()), Apply)
    {
      if action.None? { return; }
      busy, inFlight := true, inFlight + multiset{action.value};
    }

    method RetryReturned(run: nat, kind: Option<Kind>)
      requires run in inFlight && (resolver.Some? ==> resolver.value < |runs|)
      modifies this
      ensures View() == Next(old(View()), RetryResult(run, kind))
    {
      inFlight := inFlight - multiset{run};
      if kind == Some(Succeeded) {
        SettleCurrent(Result(Succeeded, run, true));
        ResetCells();
      }
      busy := false;
    }
  }

  // ---------------------------------------------------------------- invariant

  /** The value a run's promise may get: its own first result, or a success of its own action
      run elevated. */
  predicate Own(r: Result, run: nat) {
    r.Result? && r.run == run && (r.elevated ==> r.kind == Succeeded)
  }

  predicate Unresolved(r: RunState) { r.resolutions == [] }

  /** One run at a time, and none while a retry is in flight. */
  predicate MayStart(d: Dialog) {
    (forall i :: 0 <= i < |d.runs| ==> !Unresolved(d.runs[i])) && d.inFlight == multiset{}
  }

  /** In the run every start of a run was allowed. */
  predicate Disciplined(events: seq<Event>) {
    events == []
    || (var front := events[..|events| - 1];
        Disciplined(front) && (events[|events| - 1].StartRun? ==> MayStart(Reach(front))))
  }

  /** A stage is open exactly when action, resolver and last result are all set, and they
      belong to one unresolved run. */
  ghost predicate Consistent(d: Dialog) {
    && (d.stage.Some? <==> d.action.Some?) && (d.stage.Some? <==> d.resolver.Some?)
    && (d.stage.Some? <==> d.last.Some?)
    && (d.resolver.Some? ==>
          && d.action == d.resolver
          && d.resolver.value < |d.runs|
          && d.runs[d.resolver.value].phase == Handed
          && Unresolved(d.runs[d.resolver.value])
          && Own(d.last.value, d.resolver.value) && !d.last.value.elevated)
  }

  /** Every promise was resolved at most once, with a result of its own. */
  predicate AtMostOnce(r: RunState, run: nat) {
    && |r.resolutions| <= 1
    && (forall i :: 0 <= i < |r.resolutions| ==> Own(r.resolutions[i], run))
    && (r.phase.Acting? ==> Unresolved(r))
    && (r.phase.Probing? ==> Unresolved(r) && Own(r.phase.first, run) && !r.phase.first.elevated)
  }

  ghost predicate Invariant(d: Dialog) {
    && Consistent(d)
    && (forall i :: 0 <= i < |d.runs| ==> AtMostOnce(d.runs[i], i))
    // at most the newest run is unresolved, and a run that was handed on is resolved or in the dialog
    && (forall i :: 0 <= i < |d.runs| - 1 ==> !Unresolved(d.runs[i]))
    && (forall i :: 0 <= i < |d.runs| && d.runs[i].phase == Handed && Unresolved(d.runs[i]) ==> d.resolver == Some(i))
    && (forall run :: run in d.inFlight ==> run == |d.runs| - 1)
  }

  lemma StartInvariant(d: Dialog)
    requires Invariant(d) && MayStart(d)
    ensures Invariant(Next(d, StartRun))
  {}

  lemma FirstInvariant(d: Dialog, run: nat, kind: Kind)
    requires Invariant(d)
    ensures Invariant(Next(d, FirstResult(run, kind)))
  {
    if run < |d.runs| && d.runs[run].phase == Acting {
      assert AtMostOnce(d.runs[run], run);
      var d' := Next(d, FirstResult(run, kind));
      assert run == |d.runs| - 1 && d.resolver != Some(run);
      assert AtMostOnce(d'.runs[run], run);
    }
  }

  lemma ProbeInvariant(d: Dialog, run: nat, privilege: Option<Privilege>)
    requires Invariant(d)
    ensures Invariant(Next(d, Probe(run, privilege)))
  {
    if run < |d.runs| { assert AtMostOnce(d.runs[run], run); }
  }

  lemma CancelInvariant(d: Dialog)
    requires Invariant(d)
    ensures Invariant(Next(d, Cancel))
  {
    if d.resolver.Some? { assert AtMostOnce(d.runs[d.resolver.value], d.resolver.value); }
  }

  lemma RetryInvariant(d: Dialog, run: nat, outcome: Option<Kind>)
    requires Invariant(d)
    ensures Invariant(Next(d, RetryResult(run, outcome)))
  {
    if d.resolver.Some? {
      assert AtMostOnce(d.runs[d.resolver.value], d.resolver.value);
      assert run in d.inFlight ==> run == d.resolver.value;
    }
  }

  lemma StepInvariant(d: Dialog, e: Event)
    requires Invariant(d) && (e.StartRun? ==> MayStart(d))
    ensures Invariant(Next(d, e))
  {
    match e
    case StartRun => StartInvariant(d);
    case FirstResult(run, kind) => FirstInvariant(d, run, kind);
    case Probe(run, privilege) => ProbeInvariant(d, run, privilege);
    case Cancel => CancelInvariant(d);
    case RetryResult(run, outcome) => RetryInvariant(d, run, outcome);
    case HaveAdmin =>
    case Apply =>
  }

  /** Over every disciplined run of the dialog. */
  lemma {:induction false} AlwaysInvariant(events: seq<Event>)
    requires Disciplined(events)
    ensures Invariant(Reach(events))
  {
    if events != [] {
      var front := events[..|events| - 1];
      AlwaysInvariant(front);
      StepInvariant(Reach(front), events[|events| - 1]);
    }
  }

  /** A stage is open exactly when action, resolver and last result are set; each run is resolved
      at most once, with its own first result or a success of its own action; and the
      cancelled fallback is never delivered. */
  lemma DialogIsSound(events: seq<Event>)
    requires Disciplined(events)
    ensures var d := Reach(events);
            && Consistent(d)
            && (forall i :: 0 <= i < |d.runs| ==> |d.runs[i].resolutions| <= 1)
            && (forall i :: 0 <= i < |d.runs| && d.runs[i].resolutions != [] ==> Own(d.runs[i].resolutions[0], i))
            && (forall i :: 0 <= i < |d.runs| ==> Cancelled !in d.runs[i].resolutions)
  {
    AlwaysInvariant(events);
    var d := Reach(events);
    forall i | 0 <= i < |d.runs| ensures Cancelled !in d.runs[i].resolutions {
      assert AtMostOnce(d.runs[i], i);
    }
  }

  ghost predicate CancelsResolve(d: Dialog) {
    d.resolver.Some? && d.last.Some? && d.resolver.value < |d.runs|
    && var once, twice := Next(d, Cancel), Next(Next(d, Cancel), Cancel);
       var run, expected := d.resolver.value, [d.last.value];
       && |once.runs| == |twice.runs| == |d.runs|
       && (once.runs[run].resolutions == expected <==> !d.transitioning)
       && twice.runs[run].resolutions == expected
       && twice.stage == None && twice.resolver == None
  }

  /** One cancel resolves the open dialog if and only if no transition is being awaited, and
      two always do, with the result the dialog was opened for. */
  lemma TwoCancelsResolve(events: seq<Event>)
    requires Disciplined(events) && Reach(events).stage.Some?
    ensures CancelsResolve(Reach(events))
  {
    AlwaysInvariant(events);
    OpenDialogCancels(Reach(events));
  }

  lemma OpenDialogCancels(d: Dialog)
    requires Invariant(d) && d.stage.Some?
    ensures CancelsResolve(d)
  {
    var run := d.resolver.value;
    var once := Next(d, Cancel);
    if d.transitioning {
      assert once.runs == d.runs;
    } else {
      assert once.resolver.None? && once.last.None? && !once.transitioning;
      assert Next(once, Cancel).runs == once.runs;
    }
  }

  /** Without the discipline results get crossed: a run is cancelled while its retry is in
      flight, another run opens the dialog, and the late success of the first run's action
      resolves the second run. */
  lemma LateRetryCrosses(p: Privilege)
    ensures var denied := Rejected(true);
            var first := Next(Next(Next(IDLE, StartRun), FirstResult(0, denied)), Probe(0, Some(p)));
            var retrying := Next(first, Apply);
            var second := Next(Next(Next(Next(retrying, Cancel), StartRun), FirstResult(1, denied)), Probe(1, Some(p)));
            var late := Next(second, RetryResult(0, Some(Succeeded)));
            p.canSudo && !p.isRoot ==>
              |late.runs| == 2 && late.runs[1].resolutions == [Result(Succeeded, 0, true)]
              && !Own(late.runs[1].resolutions[0], 1)
  {
    if p.canSudo && !p.isRoot {
      var denied := Rejected(true);
      var r0 := Result(denied, 0, false);
      var first := Next(Next(Next(IDLE, StartRun), FirstResult(0, denied)), Probe(0, Some(p)));
      assert first == Dialog(Some(Modal1), Some(0), Some(0), Some(r0), false, false, [RunState(Handed, [])], multiset{});
      var cancelled := Next(Next(first, Apply), Cancel);
      CancelledInFlight(first, r0);
      SecondGetsIt(cancelled, r0, p);
    }
  }

  lemma CancelledInFlight(first: Dialog, r0: Result)
    requires first == Dialog(Some(Modal1), Some(0), Some(0), Some(r0), false, false, [RunState(Handed, [])], multiset{})
    ensures Next(Next(first, Apply), Cancel)
         == Dialog(None, None, None, None, false, false, [RunState(Handed, [r0])], multiset{0})
  {
    assert multiset{} + multiset{0} == multiset{0} && [] + [r0] == [r0];
  }

  lemma SecondGetsIt(cancelled: Dialog, r0: Result, p: Privilege)
    requires cancelled == Dialog(None, None, None, None, false, false, [RunState(Handed, [r0])], multiset{0})
    requires p.canSudo && !p.isRoot
    ensures var second := Next(Next(Next(cancelled, StartRun), FirstResult(1, Rejected(true))), Probe(1, Some(p)));
            var late := Next(second, RetryResult(0, Some(Succeeded)));
            |late.runs| == 2 && late.runs[1].resolutions == [Result(Succeeded, 0, true)]
  {
    var second := Next(Next(Next(cancelled, StartRun), FirstResult(1, Rejected(true))), Probe(1, Some(p)));
    assert second.runs == [RunState(Handed, [r0]), RunState(Handed, [])] && second.resolver == Some(1);
    assert 0 in second.inFlight;
  }

  /** In any state, a retry's success goes to the run it belongs to if and only if the dialog
      still is, or no longer is, that run's. */
  lemma RetryGoesHome(d: Dialog, run: nat)
    requires run in d.inFlight
    requires forall i :: 0 <= i < |d.runs| ==> forall r :: r in d.runs[i].resolutions ==> Own(r, i)
    ensures var d' := Next(d, RetryResult(run, Some(Succeeded)));
            (forall i :: 0 <= i < |d'.runs| ==> forall r :: r in d'.runs[i].resolutions ==> Own(r, i))
            <==> d.resolver.None? || d.resolver.value == run || d.resolver.value >= |d.runs|
  {
    var d' := Next(d, RetryResult(run, Some(Succeeded)));
    if d.resolver.Some? && d.resolver.value != run && d.resolver.value < |d.runs| {
      assert Result(Succeeded, run, true) in d'.runs[d.resolver.value].resolutions;
    }
  }

  // ---------------------------------------------------------------- runs that are never resolved

  /** The dialog was opened for the run, or it was to be, and its promise is unresolved; yet the
      references are no longer its own. */
  predicate Forsaken(d: Dialog, run: nat) {
    run < |d.runs| && d.runs[run].phase == Handed && Unresolved(d.runs[run]) && d.resolver != Some(run)
  }

  /** No event ever brings such a run back. */
  lemma StaysForsaken(d: Dialog, e: Event, run: nat)
    requires Forsaken(d, run)
    ensures Forsaken(Next(d, e), run)
  {}

  lemma {:induction false} ForsakenForEver(d: Dialog, more: seq<Event>, run: nat)
    requires Forsaken(d, run)
    ensures Forsaken(From(d, more), run)
  {
    if more != [] {
      ForsakenForEver(d, more[..|more| - 1], run);
      StaysForsaken(From(d, more[..|more| - 1]), more[|more| - 1], run);
    }
  }

  predicate ResolvedBy(d: Dialog, more: seq<Event>, run: nat) {
    run < |From(d, more).runs| && !Unresolved(From(d, more).runs[run])
  }

  lemma FromTwo(d: Dialog, a: Event, b: Event)
    ensures From(d, [a]) == Next(d, a) && From(d, [a, b]) == Next(Next(d, a), b)
  {
    assert [a][..0] == [] && [a, b][..1] == [a];
    assert From(d, []) == d;
  }

  /** What can still resolve a run, in one event or two. */
  lemma Resolution(d: Dialog, run: nat) returns (more: seq<Event>)
    requires run < |d.runs| && Unresolved(d.runs[run]) && !Forsaken(d, run)
    ensures ResolvedBy(d, more, run)
  {
    match d.runs[run].phase {
      case Acting =>
        more := [FirstResult(run, Succeeded)];
        FromTwo(d, FirstResult(run, Succeeded), Cancel);
      case Probing(_) =>
        more := [Probe(run, None)];
        FromTwo(d, Probe(run, None), Cancel);
      case Handed =>
        FromTwo(d, Cancel, Cancel);
        more := if d.transitioning then [Cancel, Cancel] else [Cancel];
    }
  }

  /** In any state, with any number of runs at once: an unresolved run can still be resolved if
      and only if it has not been handed to the dialog, or the dialog's resolver is its own. */
  lemma ResolvableExact(d: Dialog, run: nat)
    requires run < |d.runs| && Unresolved(d.runs[run])
    ensures (exists more :: ResolvedBy(d, more, run)) <==> (d.runs[run].phase == Handed ==> d.resolver == Some(run))
  {
    if Forsaken(d, run) {
      forall more ensures !ResolvedBy(d, more, run) { ForsakenForEver(d, more, run); }
    } else {
      var more := Resolution(d, run);
    }
  }

  /** The failing case: two actions are denied at once; the dialog for the second takes over the
      references, and the first promise is never resolved. */
  lemma SecondRunForsakesFirst(p: Privilege, q: Privilege, more: seq<Event>)
    ensures var denied := Rejected(true);
            var both := Next(Next(Next(Next(IDLE, StartRun), StartRun), FirstResult(0, denied)), FirstResult(1, denied));
            var d := Next(Next(both, Probe(0, Some(p))), Probe(1, Some(q)));
            d.resolver == Some(1) && d.stage == Some(StageFor(q)) && Forsaken(From(d, more), 0)
  {
    var r0, r1 := Result(Rejected(true), 0, false), Result(Rejected(true), 1, false);
    var started := Next(Next(IDLE, StartRun), StartRun);
    assert started.runs == [RunState(Acting, []), RunState(Acting, [])];
    var both := Next(Next(started, FirstResult(0, Rejected(true))), FirstResult(1, Rejected(true)));
    assert both.runs == [RunState(Probing(r0), []), RunState(Probing(r1), [])];
    var d := Next(Next(both, Probe(0, Some(p))), Probe(1, Some(q)));
    assert d.runs == [RunState(Handed, []), RunState(Handed, [])];
    ForsakenForEver(d, more, 0);
  }

  // ---------------------------------------------------------------- what the user can do

  /** A first result is delivered as it is, unless it reads like a denial; then the privileges are
      looked up, and if that fails it is delivered all the same. */
  lemma FirstExact(d: Dialog, run: nat, kind: Kind)
    requires run < |d.runs| && d.runs[run].phase == Acting
    ensures var d' := Next(d, FirstResult(run, kind));
            && |d'.runs| == |d.runs|
            && (kind != Rejected(true) ==> d'.runs[run].resolutions == d.runs[run].resolutions + [Result(kind, run, false)])
            && (kind == Rejected(true) ==>
                  && d'.runs[run].resolutions == d.runs[run].resolutions
                  && Next(d', Probe(run, None)).runs[run].resolutions
                     == d.runs[run].resolutions + [Result(kind, run, false)])
            && d'.stage == d.stage && Next(d', Probe(run, None)).stage == d.stage
  {}

  /** After the lookup: a retry of this run's own action with credentials can be sent, after "I have
      an administrator" at most, if and only if the user may use sudo without being root, or the
      host offers an escalation path; at once, if and only if the former. */
  lemma RetryOffered(d: Dialog, run: nat, p: Privilege)
    requires run < |d.runs| && d.runs[run].phase.Probing?
    ensures var open := Next(d, Probe(run, Some(p)));
            var atOnce, after := Next(open, Apply), Next(Next(open, HaveAdmin), Apply);
            && open.stage.Some? && open.inFlight == d.inFlight
            && (atOnce.inFlight == d.inFlight + multiset{run} <==> p.canSudo && !p.isRoot)
            && (atOnce.inFlight == d.inFlight <==> !(p.canSudo && !p.isRoot))
            && (after.inFlight == d.inFlight + multiset{run} <==> (p.canSudo && !p.isRoot) || p.escalationAvailable)
            && (after.inFlight == d.inFlight <==> !((p.canSudo && !p.isRoot) || p.escalationAvailable))
  {
    assert (d.inFlight + multiset{run})[run] == d.inFlight[run] + 1;
  }

  /** A retry that succeeds delivers its result to the run the dialog is open for and closes the
      dialog; one that fails or throws leaves it open, ready to be sent again. */
  lemma RetryExact(d: Dialog, run: nat, outcome: Option<Kind>)
    requires run in d.inFlight && d.resolver == Some(run) && run < |d.runs|
    ensures var d' := Next(d, RetryResult(run, outcome));
            && d'.inFlight == d.inFlight - multiset{run} && !d'.busy
            && (outcome == Some(Succeeded) ==>
                  && d'.runs == d.runs[run := d.runs[run].(resolutions := d.runs[run].resolutions + [Result(Succeeded, run, true)])]
                  && d'.stage.None? && d'.action.None? && d'.resolver.None? && d'.last.None?
                  && d'.transitioning == d.transitioning)
            && (outcome != Some(Succeeded) ==> d' == d.(inFlight := d'.inFlight, busy := false))
  {}

  /** The password forms and the way to them. */
  lemma ApplyExact(d: Dialog)
    ensures d.action.Some? && d.stage in {Some(Modal1), Some(Modal2)} ==>
              Next(d, Apply) == d.(busy := true, inFlight := d.inFlight + multiset{d.action.value})
    ensures !(d.action.Some? && d.stage in {Some(Modal1), Some(Modal2)}) ==> Next(d, Apply) == d
    ensures Next(d, HaveAdmin) == if d.stage == Some(NoticeCan) then d.(transitioning := true, stage := Some(Modal2)) else d
  {}

  /** A new run touches nothing but the list of runs. */
  lemma StartExact(d: Dialog)
    ensures Next(d, StartRun) == d.(runs := d.runs + [RunState(Acting, [])])
  {}
}
