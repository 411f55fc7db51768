/** The file manager: a state machine over a remote file system and a listing of the current
    directory that may be out of date. Each event is one atomic step; whether a remote call
    is let through (perhaps after elevation) is part of the event. */
module FilesApp {
  import opened Text
  import opened Base64
  import opened FileSystem
  import opened UniqueNames

  datatype ClipOp = Cut | Duplicate

  datatype Clipboard = Clipboard(from: string, name: string, op: ClipOp)

  datatype DialogMode = NewFolder | NewFile | Rename(target: string)

  datatype Dialog = Dialog(mode: DialogMode, value: string)

  /** What is to be done under a final name; the handlers' closures as data. */
  datatype Make =
    | MakeFolder
    | MakeFile
    | RenameFrom(from: string)
    | Bring(from: string, op: ClipOp)
    | Upload(contents: seq<byte>)

  /** The open conflict dialog: the name, and the directory and listing it was asked in. */
  datatype Conflict = Conflict(name: string, dir: string, existing: set<string>, make: Make)

  /** A chosen file being read; its handler keeps directory and listing of the moment of choice. */
  datatype Reading = Reading(name: string, contents: seq<byte>, dir: string, existing: set<string>)

  datatype App = App(
    path: string,
    entries: seq<string>,
    clipboard: Option<Clipboard>,
    dialog: Option<Dialog>,
    conflict: Option<Conflict>,
    pendingDelete: Option<string>,
    reading: seq<Reading>,
    fs: Fs)

  datatype Event =
    | Navigate(dir: string)
    | Listed(names: seq<string>)
    | Clip(name: string, op: ClipOp)
    | SetDialog(dialog: Option<Dialog>)
    | SubmitDialog(granted: bool)
    | Paste(granted: bool)
    | ChooseFile(name: string, contents: seq<byte>)
    | FileRead(index: nat, granted: bool)
    | KeepBoth(granted: bool)
    | Replace(removalGranted: bool, granted: bool)
    | CancelConflict
    | AskDelete(target: Option<string>)
    | ConfirmDelete(granted: bool)
    | Elsewhere(fs: Fs)  // somebody else changes the file system

  // ---------------------------------------------------------------- transitions

  function OpFor(make: Make, dir: string, name: string): Op {
    var dest := JoinPath(dir, name);
    match make
    case MakeFolder => MakeDir(dest)
    case MakeFile => CreateFile(dest)
    case RenameFrom(from) => MovePath(from, dest)
    case Bring(from, op) => if op == Cut then MovePath(from, dest) else CopyPath(from, dest)
    case Upload(contents) => WriteFile(dest, contents)
  }

  /** A remote call: the new file system, and whether it succeeded. */
  function RemoteCall(fs: Fs, op: Op, granted: bool, skipped: nat): (Fs, bool) {
    if granted then (Perform(op, fs, skipped).fs, Perform(op, fs, skipped).status == 0) else (fs, false)
  }

  function Listing(app: App): set<string> { set e | e in app.entries }

  /** `withConflict`, for the directory and the listing that the handler saw. */
  function MakeOrAsk(app: App, dir: string, existing: set<string>, name: string, make: Make, granted: bool, skipped: nat)
    : App
  {
    if name in existing then app.(conflict := Some(Conflict(name, dir, existing, make)))
    else app.(fs := RemoteCall(app.fs, OpFor(make, dir, name), granted, skipped).0)
  }

  function MakeOf(mode: DialogMode, dir: string): Make {
    match mode
    case NewFolder => MakeFolder
    case NewFile => MakeFile
    case Rename(target) => RenameFrom(JoinPath(dir, target))
  }

  function Submit(app: App, granted: bool, skipped: nat): App {
    if app.dialog.None? then app
    else
      var mode, value := app.dialog.value.mode, Trim(app.dialog.value.value);
      if value == "" || '/' in value then app
      else if mode == Rename(value) then app.(dialog := None)
      else MakeOrAsk(app.(dialog := None), app.path, Listing(app), value, MakeOf(mode, app.path), granted, skipped)
  }

  function PasteClip(app: App, granted: bool, skipped: nat): App {
    if app.clipboard.None? then app
    else
      var cb := app.clipboard.value;
      var app' := if cb.op == Cut then app.(clipboard := None) else app;
      MakeOrAsk(app', app.path, Listing(app), cb.name, Bring(cb.from, cb.op), granted, skipped)
  }

  /** Replace: an upload just overwrites; otherwise the target is removed first, and only if
      that succeeded is the new thing made. */
  function Replaced(fs: Fs, c: Conflict, removalGranted: bool, granted: bool, skipped: nat): Fs {
    if c.make.Upload? then RemoteCall(fs, OpFor(c.make, c.dir, c.name), granted, skipped).0
    else
      var (fs', removed) := RemoteCall(fs, RemovePath(JoinPath(c.dir, c.name)), removalGranted, skipped);
      if removed then RemoteCall(fs', OpFor(c.make, c.dir, c.name), granted, skipped).0 else fs'
  }

  ghost function Next(app: App, e: Event, skipped: nat): App {
    match e
    case Navigate(dir) => app.(path := dir)
    case Listed(names) => app.(entries := names)
    case Clip(name, op) => app.(clipboard := Some(Clipboard(JoinPath(app.path, name), name, op)))
    case SetDialog(dialog) => app.(dialog := dialog)
    case SubmitDialog(granted) => Submit(app, granted, skipped)
    case Paste(granted) => PasteClip(app, granted, skipped)
    case ChooseFile(name, contents) =>
      app.(reading := app.reading + [Reading(name, contents, app.path, Listing(app))])
    case FileRead(i, granted) =>
      if i < |app.reading| then
        var r := app.reading[i];
        MakeOrAsk(app.(reading := app.reading[..i] + app.reading[i + 1..]),
                  r.dir, r.existing, r.name, Upload(r.contents), granted, skipped)
      else app
    case KeepBoth(granted) =>
      if app.conflict.None? then app
      else
        var c := app.conflict.value;
        app.(conflict := None,
             fs := RemoteCall(app.fs, OpFor(c.make, c.dir, Unique(c.name, c.existing)), granted, skipped).0)
    case Replace(removalGranted, granted) =>
      if app.conflict.None? then app
      else app.(conflict := None, fs := Replaced(app.fs, app.conflict.value, removalGranted, granted, skipped))
    case CancelConflict => app.(conflict := None)
    case AskDelete(target) => app.(pendingDelete := target)
    case ConfirmDelete(granted) =>
      if app.pendingDelete.None? then app
      else app.(pendingDelete := None,
                fs := RemoteCall(app.fs, RemovePath(JoinPath(app.path, app.pendingDelete.value)), granted, skipped).0)
    case Elsewhere(fs) => app.(fs := fs)
  }

  // ---------------------------------------------------------------- the component

  class Remote {
    var fs: Fs
    const skipped: nat

    constructor (fs: Fs, skipped: nat)
      ensures this.fs == fs && this.skipped == skipped
    {
      this.fs, this.skipped := fs, skipped;
    }

    method Call(op: Op, granted: bool) returns (ok: bool)
      modifies this
      ensures (fs, ok) == RemoteCall(old(fs), op, granted, skipped)
    {
      ok := false;
      if granted {
        var effect := Perform(op, fs, skipped);
        fs := effect.fs;
        ok := effect.status == 0;
      }
    }
  }

  class FilesWindow {
    var path: string
    var entries: seq<string>
    var clipboard: Option<Clipboard>
    var dialog: Option<Dialog>
    var conflict: Option<Conflict>
    var pendingDelete: Option<string>
    var reading: seq<Reading>
    const remote: Remote

    constructor (home: string, remote: Remote)
      ensures this.remote == remote
      ensures View() == App(home, [], None, None, None, None, [], remote.fs)
    {
      path, entries, clipboard, dialog, conflict := home, [], None, None, None;
      pendingDelete, reading := None, [];
      this.remote := remote;
    }

    function View(): App
      reads this, remote
    {
      App(path, entries, clipboard, dialog, conflict, pendingDelete, reading, remote.fs)
    }

    method WithConflict(dir: string, existing: set<string>, name: string, make: Make, granted: bool)
      modifies this, remote
      ensures View() == MakeOrAsk(old(View()), dir, existing, name, make, granted, remote.skipped)
    {
      if name !in existing {
        var _ := remote.Call(OpFor(make, dir, name), granted);
      } else {
        conflict := Some(Conflict(name, dir, existing, make));
      }
    }

    method SubmitDialog(granted: bool)
      modifies this, remote
      ensures View() == Next(old(View()), Event.SubmitDialog(granted), remote.skipped)
    {
      if dialog.None? { return; }
      var value := Trim(dialog.value.value);
      if value == "" || '/' in value { return; }
      var mode := dialog.value.mode;
      dialog := None;
      if mode.Rename? && mode.target == value { return; }
      WithConflict(path, (set e | e in entries), value, MakeOf(mode, path), granted);
    }

    method Paste(granted: bool)
      modifies this, remote
      ensures View() == Next(old(View()), Event.Paste(granted), remote.skipped)
    {
      if clipboard.None? { return; }
      var cb := clipboard.value;
      if cb.op == Cut {
        clipboard := None;
      }
      WithConflict(path, (set e | e in entries), cb.name, Bring(cb.from, cb.op), granted);
    }

    /** `uploadFile` up to the wait for the bytes of the file ... */
    method ChooseUpload(name: string, contents: seq<byte>)
      modifies this
      ensures View() == Next(old(View()), ChooseFile(name, contents), remote.skipped)
    {
      reading := reading + [Reading(name, contents, path, (set e | e in entries))];
    }

    /** ... and from there on: the closure still holds the old directory and listing. */
    method ContinueUpload(i: nat, granted: bool)
      requires i < |reading|
      modifies this, remote
      ensures View() == Next(old(View()), FileRead(i, granted), remote.skipped)
    {
      var r := reading[i];
      reading := reading[..i] + reading[i + 1..];
      WithConflict(r.dir, r.existing, r.name, Upload(r.contents), granted);
    }

    method KeepBoth(granted: bool)
      modifies this, remote
      ensures View() == Next(old(View()), Event.KeepBoth(granted), remote.skipped)
    {
      if conflict.None? { return; }
      var c := conflict.value;
      conflict := None;
      var name, _ := UniqueName(c.name, c.existing);
      UniqueNameDetermined(c.name, c.existing, name, Unique(c.name, c.existing));
      var _ := remote.Call(OpFor(c.make, c.dir, name), granted);
    }

    method Replace(removalGranted: bool, granted: bool)
      modifies this, remote
      ensures View() == Next(old(View()), Event.Replace(removalGranted, granted), remote.skipped)
    {
      if conflict.None? { return; }
      var c := conflict.value;
      conflict := None;
      if c.make.Upload? {
        var _ := remote.Call(OpFor(c.make, c.dir, c.name), granted);
      } else {
        var removed := remote.Call(RemovePath(JoinPath(c.dir, c.name)), removalGranted);
        if removed {
          var _ := remote.Call(OpFor(c.make, c.dir, c.name), granted);
        }
      }
    }

    method ConfirmDelete(granted: bool)
      modifies this, remote
      ensures View() == Next(old(View()), Event.ConfirmDelete(granted), remote.skipped)
    {
      if pendingDelete.Some? {
        var target := JoinPath(path, pendingDelete.value);
        var _ := remote.Call(RemovePath(target), granted);
      }
      pendingDelete := None;
    }
  }
}
