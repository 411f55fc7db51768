/** The file manager's calls as they reach the host: every operation it can send is one whose
    command text means the operation. */
module FilesCommands {
  import opened Text
  import opened FileSystem
  import opened UniqueNames
  import opened ShellLexer
  import opened Shell
  import opened Adapter
  import CommandMeaning
  import opened FilesApp
  import FilesLaws

  predicate NameOk(name: string) { NUL !in name }

  predicate MakeOk(make: Make) {
    match make
    case RenameFrom(from) => PathOk(from)
    case Bring(from, _) => PathOk(from)
    case _ => true
  }

  /** All paths the component holds are absolute, and nothing contains NUL. */
  predicate PathsHeldOk(app: App) {
    && PathOk(app.path)
    && (forall i :: 0 <= i < |app.entries| ==> NameOk(app.entries[i]))
    && (app.clipboard.Some? ==> PathOk(app.clipboard.value.from) && NameOk(app.clipboard.value.name))
    && (app.dialog.Some? ==> DialogOk(app.dialog.value))
    && (app.conflict.Some? ==> var c := app.conflict.value; NameOk(c.name) && PathOk(c.dir) && MakeOk(c.make))
    && (app.pendingDelete.Some? ==> NameOk(app.pendingDelete.value))
    && (forall i :: 0 <= i < |app.reading| ==> NameOk(app.reading[i].name) && PathOk(app.reading[i].dir))
  }

  predicate DialogOk(d: Dialog) { NameOk(d.value) && (d.mode.Rename? ==> NameOk(d.mode.target)) }

  /** What comes from the host and from the user contains no NUL; directories are absolute. */
  predicate EventOk(e: Event) {
    match e
    case Navigate(dir) => PathOk(dir)
    case Listed(names) => forall i :: 0 <= i < |names| ==> NameOk(names[i])
    case Clip(name, _) => NameOk(name)
    case SetDialog(dialog) => dialog.Some? ==> DialogOk(dialog.value)
    case ChooseFile(name, _) => NameOk(name)
    case AskDelete(target) => target.Some? ==> NameOk(target.value)
    case _ => true
  }

  lemma {:induction false} StripPart(dir: string)
    ensures StripSlashes(dir) <= dir
  {
    if dir != "" && dir[|dir| - 1] == '/' { StripPart(dir[..|dir| - 1]); }
  }

  lemma JoinOk(dir: string, name: string)
    requires PathOk(dir) && NameOk(name)
    ensures PathOk(JoinPath(dir, name))
  {
    JoinAbsolute(dir, name);
    StripPart(dir);
    var front := StripSlashes(dir);
    assert forall c :: c in front ==> c in dir;
    assert forall c :: c in JoinPath(dir, name) ==> c == '/' || c in dir || c in name;
  }

  lemma {:induction false} TrimPart(s: string)
    ensures forall c :: c in Trim(s) ==> c in s
  {
    TrimStartPart(s);
    TrimEndPart(TrimStart(s));
  }

  lemma {:induction false} TrimStartPart(s: string)
    ensures forall c :: c in TrimStart(s) ==> c in s
  {
    if s != "" && IsSpace(s[0]) { TrimStartPart(s[1..]); }
  }

  lemma {:induction false} TrimEndPart(s: string)
    ensures forall c :: c in TrimEnd(s) ==> c in s
  {
    if s != "" && IsSpace(s[|s| - 1]) { TrimEndPart(s[..|s| - 1]); }
  }

  lemma CandidateOk(name: string, n: nat)
    requires NameOk(name)
    ensures NameOk(Candidate(name, n))
  {
    assert NameOk(Print(n, 10)) by { assert forall c :: c in Print(n, 10) ==> IsDigit(c, 10); }
    assert NameOk(Base(name)) && NameOk(Extension(name)) by {
      BaseAndExtension(name);
      assert forall c :: c in Base(name) + Extension(name) ==> c in name;
    }
  }

  lemma UniqueOk(name: string, existing: set<string>)
    requires NameOk(name)
    ensures NameOk(Unique(name, existing))
  {
    var result := Unique(name, existing);
    if name in existing {
      var n: nat :| LeastFree(name, existing, n) && result == Candidate(name, n);
      CandidateOk(name, n);
    }
  }

  lemma OpForOk(make: Make, dir: string, name: string)
    requires MakeOk(make) && PathOk(dir) && NameOk(name)
    ensures PathsOk(OpFor(make, dir, name))
  {
    JoinOk(dir, name);
  }

  lemma MakeOfOk(d: Dialog, dir: string)
    requires DialogOk(d) && PathOk(dir)
    ensures MakeOk(MakeOf(d.mode, dir))
  {
    if d.mode.Rename? { JoinOk(dir, d.mode.target); }
  }

  lemma AskedOk(app: App, dir: string, existing: set<string>, name: string, make: Make, granted: bool, skipped: nat)
    requires PathsHeldOk(app) && PathOk(dir) && NameOk(name) && MakeOk(make)
    ensures PathsHeldOk(MakeOrAsk(app, dir, existing, name, make, granted, skipped))
  {}

  lemma SubmitOk(app: App, granted: bool, skipped: nat)
    requires PathsHeldOk(app)
    ensures PathsHeldOk(Next(app, SubmitDialog(granted), skipped))
  {
    if app.dialog.Some? {
      var d := app.dialog.value;
      TrimPart(d.value);
      MakeOfOk(d, app.path);
      AskedOk(app.(dialog := None), app.path, Listing(app), Trim(d.value), MakeOf(d.mode, app.path), granted, skipped);
    }
  }

  lemma PasteOk(app: App, granted: bool, skipped: nat)
    requires PathsHeldOk(app)
    ensures PathsHeldOk(Next(app, Paste(granted), skipped))
  {
    if app.clipboard.Some? {
      var cb := app.clipboard.value;
      var app' := if cb.op == Cut then app.(clipboard := None) else app;
      AskedOk(app', app.path, Listing(app), cb.name, Bring(cb.from, cb.op), granted, skipped);
    }
  }

  lemma ReadOk(app: App, i: nat, granted: bool, skipped: nat)
    requires PathsHeldOk(app)
    ensures PathsHeldOk(Next(app, FileRead(i, granted), skipped))
  {
    if i < |app.reading| {
      var r := app.reading[i];
      var app' := app.(reading := app.reading[..i] + app.reading[i + 1..]);
      AskedOk(app', r.dir, r.existing, r.name, Upload(r.contents), granted, skipped);
    }
  }

  lemma ClipOk(app: App, name: string, op: ClipOp, skipped: nat)
    requires PathsHeldOk(app) && NameOk(name)
    ensures PathsHeldOk(Next(app, Clip(name, op), skipped))
  {
    JoinOk(app.path, name);
  }

  lemma ChooseOk(app: App, e: Event, skipped: nat)
    requires PathsHeldOk(app) && e.ChooseFile? && NameOk(e.name)
    ensures PathsHeldOk(Next(app, e, skipped))
  {}

  /** Events that only set a cell. */
  lemma CellOk(app: App, e: Event, skipped: nat)
    requires PathsHeldOk(app) && EventOk(e)
    requires e.Navigate? || e.Listed? || e.SetDialog? || e.AskDelete? || e.Elsewhere?
    ensures PathsHeldOk(Next(app, e, skipped))
  {}

  /** Events that close a dialog. */
  lemma CloseOk(app: App, e: Event, skipped: nat)
    requires PathsHeldOk(app) && (e.KeepBoth? || e.Replace? || e.CancelConflict? || e.ConfirmDelete?)
    ensures PathsHeldOk(Next(app, e, skipped))
  {}

  /** The component never comes to hold a path that the command texts do not cover. */
  lemma PathsStayOk(app: App, e: Event, skipped: nat)
    requires PathsHeldOk(app) && EventOk(e)
    ensures PathsHeldOk(Next(app, e, skipped))
  {
    match e {
      case Clip(name, op) => ClipOk(app, name, op, skipped);
      case SubmitDialog(granted) => SubmitOk(app, granted, skipped);
      case Paste(granted) => PasteOk(app, granted, skipped);
      case ChooseFile(_, _) => ChooseOk(app, e, skipped);
      case FileRead(i, granted) => ReadOk(app, i, granted, skipped);
      case Navigate(_) => CellOk(app, e, skipped);
      case Listed(_) => CellOk(app, e, skipped);
      case SetDialog(_) => CellOk(app, e, skipped);
      case AskDelete(_) => CellOk(app, e, skipped);
      case Elsewhere(_) => CellOk(app, e, skipped);
      case _ => CloseOk(app, e, skipped);
    }
  }

  // ---------------------------------------------------------------- calls on the host

  /** A remote call, and whether it is let through in the end. */
  datatype RemoteOp = RemoteOp(op: Op, granted: bool)

  /** The calls an event sends; each one only if those before it succeeded. */
  ghost function Calls(app: App, e: Event): seq<RemoteOp> {
    match e
    case SubmitDialog(granted) => CallsOf(FilesLaws.Issued(app, e), granted)
    case Paste(granted) => CallsOf(FilesLaws.Issued(app, e), granted)
    case KeepBoth(granted) => CallsOf(FilesLaws.Issued(app, e), granted)
    case FileRead(_, granted) => CallsOf(FilesLaws.Issued(app, e), granted)
    case Replace(removalGranted, granted) =>
      if app.conflict.None? then []
      else
        var c := app.conflict.value;
        var made := RemoteOp(OpFor(c.make, c.dir, c.name), granted);
        if c.make.Upload? then [made] else [RemoteOp(RemovePath(JoinPath(c.dir, c.name)), removalGranted), made]
    case ConfirmDelete(granted) =>
      if app.pendingDelete.None? then []
      else [RemoteOp(RemovePath(JoinPath(app.path, app.pendingDelete.value)), granted)]
    case _ => []
  }

  function CallsOf(op: Option<Op>, granted: bool): seq<RemoteOp> {
    match op case Some(op) => [RemoteOp(op, granted)] case None => []
  }

  /** The command line of a call, run as it stands, or under sudo with its password line. */
  function RunOnHost(h: Host, elevated: bool, op: Op, fs: Fs): Outcome {
    if elevated then Run(h, Elevated(Command(op)), CommandMeaning.PasswordLine(h.secret), fs)
    else Run(h, Command(op), [], fs)
  }

  /** The host's file system after these calls; `elevated` tells which of them went under sudo. */
  function Sent(h: Host, elevated: Op -> bool, fs: Fs, calls: seq<RemoteOp>): Fs
    decreases |calls|
  {
    if calls == [] || !calls[0].granted then fs
    else match RunOnHost(h, elevated(calls[0].op), calls[0].op, fs)
      case Unsupported => fs
      case Done(fs', _, status) => if status == 0 then Sent(h, elevated, fs', calls[1..]) else fs'
  }

  lemma OneCallRuns(h: Host, elevated: bool, op: Op, fs: Fs)
    requires PathsOk(op) && h.tries > 0 && NEWLINE !in h.secret
    ensures RunOnHost(h, elevated, op, fs) == Applied(Perform(op, fs, h.skipped))
  {
    CommandMeaning.CommandMeans(h, op, [], fs);
    CommandMeaning.ElevatedOperation(h, op, h.secret, fs);
  }

  predicate CallsOk(calls: seq<RemoteOp>) { forall i :: 0 <= i < |calls| ==> PathsOk(calls[i].op) }

  lemma IssuedOk(app: App, e: Event)
    requires PathsHeldOk(app) && EventOk(e) && FilesLaws.Issued(app, e).Some?
    ensures PathsOk(FilesLaws.Issued(app, e).value)
  {
    match e {
      case SubmitDialog(_) =>
        TrimPart(app.dialog.value.value);
        MakeOfOk(app.dialog.value, app.path);
        OpForOk(MakeOf(app.dialog.value.mode, app.path), app.path, Trim(app.dialog.value.value));
      case Paste(_) =>
        var cb := app.clipboard.value;
        OpForOk(Bring(cb.from, cb.op), app.path, cb.name);
      case FileRead(i, _) =>
        OpForOk(Upload(app.reading[i].contents), app.reading[i].dir, app.reading[i].name);
      case KeepBoth(_) =>
        var c := app.conflict.value;
        UniqueOk(c.name, c.existing);
        OpForOk(c.make, c.dir, Unique(c.name, c.existing));
    }
  }

  lemma CallsAreOk(app: App, e: Event)
    requires PathsHeldOk(app) && EventOk(e)
    ensures CallsOk(Calls(app, e))
  {
    match e {
      case Replace(_, _) =>
        if app.conflict.Some? {
          var c := app.conflict.value;
          JoinOk(c.dir, c.name);
          OpForOk(c.make, c.dir, c.name);
        }
      case ConfirmDelete(_) =>
        if app.pendingDelete.Some? { JoinOk(app.path, app.pendingDelete.value); }
      case _ =>
        if FilesLaws.Issued(app, e).Some? { IssuedOk(app, e); }
    }
  }

  /** The same calls on the state machine's file system. */
  function Effects(fs: Fs, calls: seq<RemoteOp>, skipped: nat): Fs
    decreases |calls|
  {
    if calls == [] then fs
    else
      var (fs', ok) := RemoteCall(fs, calls[0].op, calls[0].granted, skipped);
      if ok then Effects(fs', calls[1..], skipped) else fs'
  }

  lemma {:induction false} SentEffects(h: Host, elevated: Op -> bool, fs: Fs, calls: seq<RemoteOp>)
    requires CallsOk(calls) && h.tries > 0 && NEWLINE !in h.secret
    ensures Sent(h, elevated, fs, calls) == Effects(fs, calls, h.skipped)
    decreases |calls|
  {
    if calls != [] && calls[0].granted {
      OneCallRuns(h, elevated(calls[0].op), calls[0].op, fs);
      SentEffects(h, elevated, Perform(calls[0].op, fs, h.skipped).fs, calls[1..]);
    }
  }

  lemma EffectsOfOne(fs: Fs, call: RemoteOp, skipped: nat)
    ensures Effects(fs, [call], skipped) == RemoteCall(fs, call.op, call.granted, skipped).0
  {
    assert [call][1..] == [];
  }

  lemma EffectsOfTwo(fs: Fs, a: RemoteOp, b: RemoteOp, skipped: nat)
    ensures var (fs', ok) := RemoteCall(fs, a.op, a.granted, skipped);
            Effects(fs, [a, b], skipped) == if ok then RemoteCall(fs', b.op, b.granted, skipped).0 else fs'
  {
    assert [a, b][1..] == [b];
    EffectsOfOne(RemoteCall(fs, a.op, a.granted, skipped).0, b, skipped);
  }

  lemma ReplaceCalls(app: App, removalGranted: bool, granted: bool, skipped: nat)
    ensures Next(app, Replace(removalGranted, granted), skipped).fs
         == Effects(app.fs, Calls(app, Replace(removalGranted, granted)), skipped)
  {
    if app.conflict.Some? {
      var c := app.conflict.value;
      var made := RemoteOp(OpFor(c.make, c.dir, c.name), granted);
      if c.make.Upload? {
        EffectsOfOne(app.fs, made, skipped);
      } else {
        EffectsOfTwo(app.fs, RemoteOp(RemovePath(JoinPath(c.dir, c.name)), removalGranted), made, skipped);
      }
    }
  }

  /** An event's calls are all that it does to the file system. */
  lemma CallsEffect(app: App, e: Event, skipped: nat)
    requires !e.Elsewhere?
    ensures Next(app, e, skipped).fs == Effects(app.fs, Calls(app, e), skipped)
  {
    var calls := Calls(app, e);
    if e.Replace? {
      ReplaceCalls(app, e.removalGranted, e.granted, skipped);
    } else if calls != [] {
      assert calls == [calls[0]];
      EffectsOfOne(app.fs, calls[0], skipped);
    }
  }

  // ---------------------------------------------------------------- sessions on the host

  /** A session in which the host's file system is what the command lines make of it. */
  ghost function OnHost(h: Host, elevated: Op -> bool, app: App, events: seq<Event>): App {
    if events == [] then app
    else
      var before, e := OnHost(h, elevated, app, events[..|events| - 1]), events[|events| - 1];
      Next(before, e, h.skipped).(fs := if e.Elsewhere? then e.fs else Sent(h, elevated, before.fs, Calls(before, e)))
  }

  /** Whole sessions on the host: when every call of every event, Replace, Delete and uploads
      included, goes out as its command line, plainly or under sudo with the right password,
      the host's file system is at all times the state machine's, and no path that the
      command texts do not cover is ever held. */
  lemma {:induction false} SessionRuns(h: Host, elevated: Op -> bool, app: App, events: seq<Event>)
    requires PathsHeldOk(app) && forall i :: 0 <= i < |events| ==> EventOk(events[i])
    requires h.tries > 0 && NEWLINE !in h.secret
    ensures OnHost(h, elevated, app, events) == FilesLaws.Run(app, events, h.skipped)
    ensures PathsHeldOk(FilesLaws.Run(app, events, h.skipped))
  {
    if events != [] {
      var front, e := events[..|events| - 1], events[|events| - 1];
      SessionRuns(h, elevated, app, front);
      var before := FilesLaws.Run(app, front, h.skipped);
      PathsStayOk(before, e, h.skipped);
      if !e.Elsewhere? {
        CallsAreOk(before, e);
        SentEffects(h, elevated, before.fs, Calls(before, e));
        CallsEffect(before, e, h.skipped);
      }
    }
  }
}
