/** What holds over whole sessions of the file manager. */
module FilesLaws {
  import opened Text
  import opened Base64
  import opened FileSystem
  import opened UniqueNames
  import opened FilesApp

  // ---------------------------------------------------------------- runs

  ghost function Run(app: App, events: seq<Event>, skipped: nat): App {
    if events == [] then app
    else Next(Run(app, events[..|events| - 1], skipped), events[|events| - 1], skipped)
  }

  /** The user consents to the loss of something. */
  predicate Consents(e: Event) { e.Replace? || e.ConfirmDelete? }

  /** The operation that an event without consent is about to send to the host, if any. */
  ghost function Issued(app: App, e: Event): Option<Op> {
    match e
    case SubmitDialog(_) =>
      if app.dialog.None? then None
      else
        var mode, value := app.dialog.value.mode, Trim(app.dialog.value.value);
        if value == "" || '/' in value || mode == Rename(value) || value in app.entries then None
        else Some(OpFor(MakeOf(mode, app.path), app.path, value))
    case Paste(_) =>
      if app.clipboard.None? || app.clipboard.value.name in app.entries then None
      else Some(OpFor(Bring(app.clipboard.value.from, app.clipboard.value.op), app.path, app.clipboard.value.name))
    case FileRead(i, _) =>
      if i >= |app.reading| || app.reading[i].name in app.reading[i].existing then None
      else Some(OpFor(Upload(app.reading[i].contents), app.reading[i].dir, app.reading[i].name))
    case KeepBoth(_) =>
      if app.conflict.None? then None
      else
        var c := app.conflict.value;
        Some(OpFor(c.make, c.dir, Unique(c.name, c.existing)))
    case _ => None
  }

  /** The same, if it is let through. */
  ghost function Sent(app: App, e: Event): Option<Op> {
    match e
    case SubmitDialog(granted) => if granted then Issued(app, e) else None
    case Paste(granted) => if granted then Issued(app, e) else None
    case FileRead(_, granted) => if granted then Issued(app, e) else None
    case KeepBoth(granted) => if granted then Issued(app, e) else None
    case _ => None
  }

  /** The file system after what the event sends. */
  ghost function AfterSent(app: App, e: Event, skipped: nat): Fs {
    match Sent(app, e) case Some(op) => Perform(op, app.fs, skipped).fs case None => app.fs
  }

  lemma SubmitEffect(app: App, e: Event, skipped: nat)
    requires e.SubmitDialog?
    ensures Next(app, e, skipped).fs == AfterSent(app, e, skipped)
  {}

  lemma PasteEffect(app: App, e: Event, skipped: nat)
    requires e.Paste?
    ensures Next(app, e, skipped).fs == AfterSent(app, e, skipped)
  {}

  lemma ReadEffect(app: App, e: Event, skipped: nat)
    requires e.FileRead?
    ensures Next(app, e, skipped).fs == AfterSent(app, e, skipped)
  {}

  lemma KeepBothEffect(app: App, e: Event, skipped: nat)
    requires e.KeepBoth?
    ensures Next(app, e, skipped).fs == AfterSent(app, e, skipped)
  {}

  lemma SentEffect(app: App, e: Event, skipped: nat)
    requires !Consents(e) && !e.Elsewhere?
    ensures Next(app, e, skipped).fs == AfterSent(app, e, skipped)
  {
    match e {
      case SubmitDialog(_) => SubmitEffect(app, e, skipped);
      case Paste(_) => PasteEffect(app, e, skipped);
      case FileRead(_, _) => ReadEffect(app, e, skipped);
      case KeepBoth(_) => KeepBothEffect(app, e, skipped);
      case _ =>
    }
  }

  lemma NothingRemoved(app: App, e: Event)
    requires Sent(app, e).Some?
    ensures !Sent(app, e).value.RemovePath?
  {}

  /** A write, let through, meets a file with other content. */
  ghost predicate Overwrites(app: App, e: Event) {
    && Sent(app, e).Some? && Sent(app, e).value.WriteFile?
    && var p := Resolve(Sent(app, e).value.path);
       IsFile(app.fs, p) && app.fs[p] != File(Sent(app, e).value.contents)
  }

  // ---------------------------------------------------------------- one write

  /** No two elements have one image. */
  lemma {:induction false} ImageSize(ps: set<Path>, m: map<Path, Path>)
    requires forall p :: p in ps ==> p in m
    requires forall p, q :: p in ps && q in ps && m[p] == m[q] ==> p == q
    ensures |set p | p in ps :: m[p]| == |ps|
  {
    if ps != {} {
      var p :| p in ps;
      ImageSize(ps - {p}, m);
      assert (set q | q in ps :: m[q]) == (set q | q in ps - {p} :: m[q]) + {m[p]};
    }
  }

  function Holding(fs: Fs, node: Node): set<Path> { set p | p in fs && fs[p] == node }

  /** Conserved content is in no fewer files than before. */
  lemma ConservedCount(fs: Fs, fs': Fs, node: Node)
    requires Conserved(fs, fs') && node.File?
    ensures |Holding(fs, node)| <= |Holding(fs', node)|
  {
    var m :| Carries(m, fs, fs');
    var image := set p | p in Holding(fs, node) :: m[p];
    ImageSize(Holding(fs, node), m);
    SubsetSize(image, Holding(fs', node));
  }

  lemma OneLess(fs: Fs, p: Path, contents: seq<byte>)
    requires IsFile(fs, p) && fs[p] != File(contents)
    ensures |Holding(fs[p := File(contents)], fs[p])| < |Holding(fs, fs[p])|
  {
    var was, now := Holding(fs, fs[p]), Holding(fs[p := File(contents)], fs[p]);
    assert now == was - {p} && p in was;
  }

  /** Writing over a file with other content loses that content: there is one file less of it. */
  lemma OverwritingLoses(fs: Fs, p: Path, contents: seq<byte>)
    requires IsFile(fs, p) && fs[p] != File(contents)
    ensures !Conserved(fs, fs[p := File(contents)])
  {
    OneLess(fs, p, contents);
    if Conserved(fs, fs[p := File(contents)]) { ConservedCount(fs, fs[p := File(contents)], fs[p]); }
  }

  /** A write loses something if and only if a file with other content is there. */
  lemma WriteExact(fs: Fs, p: Path, contents: seq<byte>)
    requires ValidFs(fs)
    ensures ValidFs(Redirect(fs, p, contents).fs)
    ensures Conserved(fs, Redirect(fs, p, contents).fs) <==> (IsFile(fs, p) ==> fs[p] == File(contents))
  {
    FileAdded(fs, p, contents);
    if IsFile(fs, p) && fs[p] != File(contents) {
      assert HasParent(fs, p);
      OverwritingLoses(fs, p, contents);
    } else {
      ExtendsConserves(fs, Redirect(fs, p, contents).fs);
    }
  }

  // ---------------------------------------------------------------- conservation

  lemma OpConserves(fs: Fs, op: Op, skipped: nat)
    requires ValidFs(fs) && !op.RemovePath?
    ensures ValidFs(Perform(op, fs, skipped).fs)
    ensures Conserved(fs, Perform(op, fs, skipped).fs)
            <==> (op.WriteFile? && IsFile(fs, Resolve(op.path)) ==> fs[Resolve(op.path)] == File(op.contents))
  {
    PerformValid(op, fs, skipped);
    if op.WriteFile? {
      WriteExact(fs, Resolve(op.path), op.contents);
    } else {
      PerformConserves(op, fs, skipped);
    }
  }

  /** One step without consent, uploads included: whatever the listing says, content disappears
      if and only if a write meets a file with other content. */
  lemma StepConserves(app: App, e: Event, skipped: nat)
    requires ValidFs(app.fs) && !Consents(e)
    requires e.Elsewhere? ==> ValidFs(e.fs) && Conserved(app.fs, e.fs)
    ensures ValidFs(Next(app, e, skipped).fs)
    ensures Conserved(app.fs, Next(app, e, skipped).fs) <==> !Overwrites(app, e)
  {
    if !e.Elsewhere? {
      SentEffect(app, e, skipped);
      if Sent(app, e).Some? {
        NothingRemoved(app, e);
        OpConserves(app.fs, Sent(app, e).value, skipped);
      } else {
        ExtendsConserves(app.fs, app.fs);
      }
    }
  }

  /** The others behave in a run: they leave a file system, and lose nothing. */
  ghost predicate OthersConserve(app: App, events: seq<Event>, skipped: nat) {
    forall i :: 0 <= i < |events| && events[i].Elsewhere? ==>
      ValidFs(events[i].fs) && Conserved(Run(app, events[..i], skipped).fs, events[i].fs)
  }

  ghost predicate NothingOverwritten(app: App, events: seq<Event>, skipped: nat) {
    forall i :: 0 <= i < |events| ==> !Overwrites(Run(app, events[..i], skipped), events[i])
  }

  lemma {:induction false} RunValid(app: App, events: seq<Event>, skipped: nat)
    requires ValidFs(app.fs)
    requires forall i :: 0 <= i < |events| ==> !Consents(events[i])
    requires OthersConserve(app, events, skipped)
    ensures ValidFs(Run(app, events, skipped).fs)
  {
    if events != [] {
      var front := events[..|events| - 1];
      assert forall i :: 0 <= i < |front| ==> front[..i] == events[..i];
      RunValid(app, front, skipped);
      StepConserves(Run(app, front, skipped), events[|events| - 1], skipped);
    }
  }

  /** From any moment of a run without consent to its end, content is conserved if no write
      meets a file with other content. */
  lemma {:induction false} ConservedSince(app: App, events: seq<Event>, n: nat, skipped: nat)
    requires ValidFs(app.fs) && n <= |events|
    requires forall i :: 0 <= i < |events| ==> !Consents(events[i])
    requires OthersConserve(app, events, skipped) && NothingOverwritten(app, events, skipped)
    ensures Conserved(Run(app, events[..n], skipped).fs, Run(app, events, skipped).fs)
    decreases |events|
  {
    var last := Run(app, events, skipped);
    if n == |events| {
      assert events[..n] == events;
      ExtendsConserves(last.fs, last.fs);
    } else {
      var front, e := events[..|events| - 1], events[|events| - 1];
      assert forall i :: 0 <= i <= |front| ==> front[..i] == events[..i];
      ConservedSince(app, front, n, skipped);
      RunValid(app, front, skipped);
      var mid := Run(app, front, skipped);
      StepConserves(mid, e, skipped);
      ConservedChain(Run(app, events[..n], skipped).fs, mid.fs, last.fs);
    }
  }

  /** Of no moment of the run has any content disappeared at any later one. */
  ghost predicate NothingLost(app: App, events: seq<Event>, skipped: nat) {
    forall n, m :: 0 <= n <= m <= |events| ==> ConservedBetween(app, events, n, m, skipped)
  }

  ghost predicate ConservedBetween(app: App, events: seq<Event>, n: nat, m: nat, skipped: nat)
    requires n <= m <= |events|
  {
    Conserved(Run(app, events[..n], skipped).fs, Run(app, events[..m], skipped).fs)
  }

  lemma FrontConserves(app: App, events: seq<Event>, m: nat, skipped: nat)
    requires m <= |events| && OthersConserve(app, events, skipped)
    ensures OthersConserve(app, events[..m], skipped)
    ensures NothingOverwritten(app, events, skipped) ==> NothingOverwritten(app, events[..m], skipped)
  {
    assert forall i :: 0 <= i < m ==> events[..m][..i] == events[..i];
  }

  /** Over every run without Replace and Delete, uploads included, with stale listings, denied
      and granted calls, and Keep both or Cancel at every conflict: nothing that was ever
      there is lost if and only if no write meets a file with other content. */
  lemma LossExact(app: App, events: seq<Event>, skipped: nat)
    requires ValidFs(app.fs)
    requires forall i :: 0 <= i < |events| ==> !Consents(events[i])
    requires OthersConserve(app, events, skipped)
    ensures NothingLost(app, events, skipped) <==> NothingOverwritten(app, events, skipped)
  {
    if NothingOverwritten(app, events, skipped) {
      forall n, m | 0 <= n <= m <= |events| ensures ConservedBetween(app, events, n, m, skipped) {
        FrontConserves(app, events, m, skipped);
        assert events[..m][..n] == events[..n];
        ConservedSince(app, events[..m], n, skipped);
      }
    } else {
      var i :| 0 <= i < |events| && Overwrites(Run(app, events[..i], skipped), events[i]);
      OverwriteLoses(app, events, i, skipped);
      assert !ConservedBetween(app, events, i, i + 1, skipped);
    }
  }

  lemma OverwriteLoses(app: App, events: seq<Event>, i: nat, skipped: nat)
    requires ValidFs(app.fs) && i < |events|
    requires forall j :: 0 <= j < |events| ==> !Consents(events[j])
    requires OthersConserve(app, events, skipped)
    requires Overwrites(Run(app, events[..i], skipped), events[i])
    ensures !ConservedBetween(app, events, i, i + 1, skipped)
  {
    var front, e := events[..i], events[i];
    assert ValidFs(Run(app, front, skipped).fs) by {
      FrontConserves(app, events, i, skipped);
      RunValid(app, front, skipped);
    }
    assert Run(app, events[..i + 1], skipped) == Next(Run(app, front, skipped), e, skipped) by {
      assert events[..i + 1] == front + [e];
      RunSnoc(app, front, e, skipped);
    }
    StepConserves(Run(app, front, skipped), e, skipped);
  }

  predicate NoUploadPending(app: App) { app.conflict.Some? ==> !app.conflict.value.make.Upload? }

  lemma {:induction false} NoUploadAppears(app: App, events: seq<Event>, skipped: nat)
    requires NoUploadPending(app) && forall i :: 0 <= i < |events| ==> !events[i].FileRead?
    ensures NoUploadPending(Run(app, events, skipped))
  {
    if events != [] { NoUploadAppears(app, events[..|events| - 1], skipped); }
  }

  lemma NoWriteSent(app: App, e: Event)
    requires NoUploadPending(app) && !e.FileRead?
    ensures !Overwrites(app, e)
  {}

  /** No lost data without consent: over every run of navigation, stale listings, new
      folders, new files, renames, cuts, copies and pastes, with denied and granted calls and
      with Keep both or Cancel at every conflict, the content of every file that was there at
      the start is still in some file at the end, and no two of them in the same. */
  lemma NoLossWithoutConsent(app: App, events: seq<Event>, skipped: nat)
    requires ValidFs(app.fs) && NoUploadPending(app)
    requires forall i :: 0 <= i < |events| ==> !Consents(events[i]) && !events[i].FileRead?
    requires OthersConserve(app, events, skipped)
    ensures var last := Run(app, events, skipped);
            ValidFs(last.fs) && NoUploadPending(last) && Conserved(app.fs, last.fs)
  {
    forall i | 0 <= i < |events| ensures !Overwrites(Run(app, events[..i], skipped), events[i]) {
      NoUploadAppears(app, events[..i], skipped);
      NoWriteSent(Run(app, events[..i], skipped), events[i]);
    }
    NoUploadAppears(app, events, skipped);
    RunValid(app, events, skipped);
    ConservedSince(app, events, 0, skipped);
    assert events[..0] == [];
  }

  lemma PasteSends(app: App, granted: bool)
    requires app.clipboard.Some?
    ensures var op := Sent(app, Paste(granted));
            op.Some? ==> if app.clipboard.value.op == Cut then op.value.MovePath? else op.value.CopyPath?
  {}

  /** A copy only adds; a cut only relocates, losing and duplicating nothing. */
  lemma PasteKinds(app: App, granted: bool, skipped: nat)
    requires ValidFs(app.fs) && app.clipboard.Some?
    ensures var fs' := Next(app, Paste(granted), skipped).fs;
            && (app.clipboard.value.op == Duplicate ==> Extends(app.fs, fs'))
            && (app.clipboard.value.op == Cut ==> Conserved(app.fs, fs') && Conserved(fs', app.fs))
  {
    SentEffect(app, Paste(granted), skipped);
    PasteSends(app, granted);
    ExtendsConserves(app.fs, app.fs);
    if Sent(app, Paste(granted)).Some? { PerformConserves(Sent(app, Paste(granted)).value, app.fs, skipped); }
  }

  // ---------------------------------------------------------------- uploads

  /** Adding or rewriting one file keeps everything present if and only if no other content is
      there. */
  lemma WriteExtends(fs: Fs, p: Path, contents: seq<byte>)
    ensures Extends(fs, Redirect(fs, p, contents).fs) <==> (IsFile(fs, p) ==> fs[p] == File(contents) || p == [] || !HasParent(fs, p))
  {
    if IsFile(fs, p) && Writable(fs, p) { assert p in fs; }
  }

  /** When the bytes of an upload have been read and the dialog does not open, something is
      lost if and only if a file with other content is there by then, unlisted. */
  lemma UploadExact(app: App, i: nat, granted: bool, skipped: nat)
    requires ValidFs(app.fs) && i < |app.reading| && ProperName(app.reading[i].name)
    ensures var r := app.reading[i];
            var t := Resolve(r.dir) + [r.name];
            Extends(app.fs, Next(app, FileRead(i, granted), skipped).fs)
            <==> (r.name in r.existing || !granted || (IsFile(app.fs, t) ==> app.fs[t] == File(r.contents)))
  {
    var r := app.reading[i];
    JoinResolves(r.dir, r.name);
    WriteExtends(app.fs, Resolve(r.dir) + [r.name], r.contents);
  }

  /** When the dialog opened and the user keeps both, the same holds of the fresh name, which is
      fresh for the listing only. */
  lemma UploadKeepBothExact(app: App, granted: bool, skipped: nat)
    requires ValidFs(app.fs) && app.conflict.Some? && app.conflict.value.make.Upload?
    requires ProperName(app.conflict.value.name)
    ensures var c := app.conflict.value;
            var t := Resolve(c.dir) + [Unique(c.name, c.existing)];
            Extends(app.fs, Next(app, KeepBoth(granted), skipped).fs)
            <==> (!granted || (IsFile(app.fs, t) ==> app.fs[t] == File(c.make.contents)))
  {
    var c := app.conflict.value;
    var name := Unique(c.name, c.existing);
    UniqueProper(c.name, c.existing);
    JoinResolves(c.dir, name);
    WriteExtends(app.fs, Resolve(c.dir) + [name], c.make.contents);
  }

  /** So an upload that does not replace only adds when the listing it was chosen with still
      shows every name of the directory. */
  lemma UploadAdds(app: App, i: nat, granted: bool, skipped: nat)
    requires ValidFs(app.fs) && i < |app.reading| && ProperName(app.reading[i].name)
    requires Shows(app.fs, app.reading[i].dir, app.reading[i].existing)
    ensures Extends(app.fs, Next(app, FileRead(i, granted), skipped).fs)
  {
    UploadExact(app, i, granted, skipped);
  }

  // ---------------------------------------------------------------- one thing made

  /** What a make relocates or duplicates, if it does. */
  function Mover(make: Make): Option<(string, ClipOp)> {
    match make
    case RenameFrom(from) => Some((from, Cut))
    case Bring(from, op) => Some((from, op))
    case _ => None
  }

  /** The one node a make creates, if it does. */
  function NewNode(make: Make): Option<Node> {
    match make
    case MakeFolder => Some(Dir)
    case MakeFile => Some(File([]))
    case Upload(contents) => Some(File(contents))
    case _ => None
  }

  /** The target is that node, with nothing below it, and nothing else changed. */
  ghost predicate MadeExactly(fs: Fs, t: Path, node: Node, fs': Fs) {
    && t in fs' && fs'[t] == node
    && (forall q :: t <= q && q != t ==> q !in fs')
    && SameOutside(fs, fs', {t})
  }

  /** There was a source, the target holds what it held, a cut source is gone, and nothing else
      changed. */
  ghost predicate BroughtExactly(fs: Fs, s: Path, t: Path, op: ClipOp, fs': Fs) {
    && s in fs
    && SameTree(fs, s, fs', t)
    && (op == Cut ==> forall q :: s <= q ==> q !in fs')
    && SameOutside(fs, fs', if op == Cut then {s, t} else {t})
  }

  /** What the make is for has happened at `t`, and nothing else has. */
  ghost predicate Achieved(fs: Fs, make: Make, t: Path, fs': Fs) {
    match Mover(make)
    case Some((from, op)) => BroughtExactly(fs, Resolve(from), t, op, fs')
    case None => MadeExactly(fs, t, NewNode(make).value, fs')
  }

  predicate Apart(s: Path, t: Path) { !(s <= t) && !(t <= s) }

  /** The target has a directory to be in; a source exists, and neither path contains the other;
      an upload does not go onto a directory. */
  predicate Possible(fs: Fs, make: Make, t: Path) {
    && HasParent(fs, t)
    && (Mover(make).Some? ==> Resolve(Mover(make).value.0) in fs && Apart(Resolve(Mover(make).value.0), t))
    && (make.Upload? ==> !IsDir(fs, t))
  }

  /** A target that exists needs a directory, which was there before. */
  lemma NeedsParent(fs: Fs, fs': Fs, t: Path)
    requires ValidFs(fs') && t in fs' && t != [] && SameOutside(fs, fs', {t})
    ensures HasParent(fs, t)
  {
    assert Outside(Parent(t), {t});
    assert SameAt(fs, fs', Parent(t));
  }

  lemma AncestorIsDir(fs: Fs, t: Path, q: Path)
    requires ValidFs(fs) && HasParent(fs, t) && q <= t && q != t
    ensures IsDir(fs, q)
  {
    PrefixParent(q, t);
    if q != Parent(t) { PrefixIsDir(fs, q, Parent(t)); }
  }

  lemma MovedToFree(fs: Fs, s: Path, t: Path, op: ClipOp, skipped: nat)
    requires ValidFs(fs) && t !in fs && t != []
    ensures var fs' := if op == Cut then Mv(fs, s, t, skipped).fs else Cp(fs, s, t, skipped).fs;
            && (BroughtExactly(fs, s, t, op, fs') <==> s in fs && HasParent(fs, t) && Apart(s, t))
            && (!(s in fs && HasParent(fs, t) && Apart(s, t)) ==> fs' == fs)
  {
    if s in fs {
      if t <= s { NothingUnderAbsent(fs, t, s); }
      if HasParent(fs, t) && s <= t { AncestorIsDir(fs, t, s); }
      assert s + [] == s && t + [] == t;
      if op == Cut { MvMeaning(fs, s, t, skipped); } else { CpMeaning(fs, s, t, skipped); }
    }
  }

  lemma NoFileInTheWay(fs: Fs, t: Path, i: nat)
    requires ValidFs(fs) && t !in fs && HasParent(fs, t) && i <= |t|
    ensures !IsFile(fs, t[..i])
  {
    if i == |t| { assert t[..i] == t; } else { AncestorIsDir(fs, t, t[..i]); }
  }

  lemma OnlyTargetAdded(fs: Fs, t: Path)
    requires forall q :: q <= t && q != t ==> IsDir(fs, q)
    requires t !in fs
    ensures (map q | q in Prefixes(t) :: Dir) + fs == fs[t := Dir]
  {
    var dirs := map q | q in Prefixes(t) :: Dir;
    assert t in dirs;
    assert forall q :: q in dirs ==> q == t || IsDir(fs, q);
  }

  lemma FolderOnFree(fs: Fs, t: Path)
    requires ValidFs(fs) && t !in fs && HasParent(fs, t)
    ensures Mkdir(fs, t) == Effect(fs[t := Dir], 0)
  {
    forall i | 0 <= i <= |t| ensures !IsFile(fs, t[..i]) { NoFileInTheWay(fs, t, i); }
    forall q | q <= t && q != t ensures IsDir(fs, q) { AncestorIsDir(fs, t, q); }
    OnlyTargetAdded(fs, t);
  }

  lemma NodeAdded(fs: Fs, t: Path, node: Node)
    requires ValidFs(fs) && (t !in fs || fs[t].File?)
    ensures MadeExactly(fs, t, node, fs[t := node])
  {
    forall q | t <= q && q != t ensures q !in fs {
      if q in fs { PrefixIsDir(fs, t, q); }
    }
  }

  function Made(fs: Fs, make: Make, dir: string, name: string, skipped: nat): Fs {
    Perform(OpFor(make, dir, name), fs, skipped).fs
  }

  lemma NodeOnFree(fs: Fs, make: Make, dir: string, name: string, skipped: nat)
    requires ValidFs(fs) && ProperName(name) && NewNode(make).Some?
    requires var t := Resolve(dir) + [name]; t !in fs || (make.Upload? && fs[t].File?)
    ensures var t := Resolve(dir) + [name];
            MadeExactly(fs, t, NewNode(make).value, Made(fs, make, dir, name, skipped)) <==> HasParent(fs, t)
  {
    var t, fs' := Resolve(dir) + [name], Made(fs, make, dir, name, skipped);
    JoinResolves(dir, name);
    if HasParent(fs, t) {
      if make.MakeFolder? { FolderOnFree(fs, t); }
      NodeAdded(fs, t, NewNode(make).value);
    } else if MadeExactly(fs, t, NewNode(make).value, fs') {
      PerformValid(OpFor(make, dir, name), fs, skipped);
      NeedsParent(fs, fs', t);
    }
  }

  /** Under a name that is free, an action achieves what it is for if and only if it is possible;
      a move or copy that is not possible changes nothing. */
  lemma MakeOnFree(fs: Fs, make: Make, dir: string, name: string, skipped: nat)
    requires ValidFs(fs) && ProperName(name) && Resolve(dir) + [name] !in fs
    ensures var t := Resolve(dir) + [name];
            && (Achieved(fs, make, t, Made(fs, make, dir, name, skipped)) <==> Possible(fs, make, t))
            && (Mover(make).Some? && !Possible(fs, make, t) ==> Made(fs, make, dir, name, skipped) == fs)
  {
    var t := Resolve(dir) + [name];
    if Mover(make).Some? {
      JoinResolves(dir, name);
      MovedToFree(fs, Resolve(Mover(make).value.0), t, Mover(make).value.1, skipped);
    } else {
      NodeOnFree(fs, make, dir, name, skipped);
    }
  }

  // ---------------------------------------------------------------- the dialog

  predicate Blanks(s: string) { forall c :: c in s ==> IsSpace(c) }

  /** A name that trimming leaves alone. */
  predicate Trimmed(name: string) { name != "" && !IsSpace(name[0]) && !IsSpace(name[|name| - 1]) }

  lemma {:induction false} TrimStartBlanks(pre: string, rest: string)
    requires Blanks(pre) && (rest == "" || !IsSpace(rest[0]))
    ensures TrimStart(pre + rest) == rest
  {
    if pre == "" {
      assert pre + rest == rest;
    } else {
      assert pre[0] in pre && (pre + rest)[1..] == pre[1..] + rest;
      TrimStartBlanks(pre[1..], rest);
    }
  }

  lemma {:induction false} TrimEndBlanks(rest: string, post: string)
    requires Blanks(post) && (rest == "" || !IsSpace(rest[|rest| - 1]))
    ensures TrimEnd(rest + post) == rest
    decreases |post|
  {
    if post == "" {
      assert rest + post == rest;
    } else {
      var last := |post| - 1;
      assert post[last] in post && (rest + post)[..|rest + post| - 1] == rest + post[..last];
      TrimEndBlanks(rest, post[..last]);
    }
  }

  /** Trimming takes off the blanks around a name and nothing else. */
  lemma TrimExact(pre: string, name: string, post: string)
    requires Blanks(pre) && Blanks(post) && Trimmed(name)
    ensures Trim(pre + name + post) == name
  {
    assert pre + name + post == pre + (name + post);
    TrimStartBlanks(pre, name + post);
    TrimEndBlanks(name, post);
  }

  lemma TrimBlanks(s: string)
    requires Blanks(s)
    ensures Trim(s) == ""
  {
    assert s + "" == s;
    TrimStartBlanks(s, "");
  }

  lemma DialogStep(app: App, pre: string, name: string, post: string, granted: bool, skipped: nat)
    requires app.dialog.Some? && app.dialog.value.value == pre + name + post
    requires Blanks(pre) && Blanks(post) && Trimmed(name) && '/' !in name
    requires name !in app.entries && app.dialog.value.mode != Rename(name)
    ensures var make, app' := MakeOf(app.dialog.value.mode, app.path), Next(app, SubmitDialog(granted), skipped);
            app' == app.(dialog := None, fs := if granted then Made(app.fs, make, app.path, name, skipped) else app.fs)
  {
    TrimExact(pre, name, post);
  }

  /** A folder or a file made where nothing is. */
  lemma NodeMade(fs: Fs, make: Make, dir: string, name: string, skipped: nat)
    requires ValidFs(fs) && ProperName(name) && (make.MakeFolder? || make.MakeFile?)
    requires Resolve(dir) + [name] !in fs && IsDir(fs, Resolve(dir))
    ensures Made(fs, make, dir, name, skipped) == fs[Resolve(dir) + [name] := if make.MakeFolder? then Dir else File([])]
  {
    var t := Resolve(dir) + [name];
    assert Resolve(JoinPath(dir, name)) == t by { JoinResolves(dir, name); }
    assert Parent(t) == Resolve(dir) && HasParent(fs, t);
    if make.MakeFolder? { FolderOnFree(fs, t); }
  }

  lemma SiblingMoved(fs: Fs, dir: string, target: string, name: string, skipped: nat)
    requires ValidFs(fs) && ProperName(name) && ProperName(target) && IsDir(fs, Resolve(dir))
    requires Resolve(dir) + [name] !in fs && Resolve(dir) + [target] in fs
    ensures BroughtExactly(fs, Resolve(dir) + [target], Resolve(dir) + [name], Cut,
                           Made(fs, RenameFrom(JoinPath(dir, target)), dir, name, skipped))
  {
    JoinResolves(dir, target);
    SiblingsApart(Resolve(dir), target, name);
    assert Parent(Resolve(dir) + [name]) == Resolve(dir);
    MakeOnFree(fs, RenameFrom(JoinPath(dir, target)), dir, name, skipped);
  }

  /** The dialog with a name that is not listed and not there: New folder makes a directory, New
      file an empty file, Rename moves the entry; a denied call changes nothing; the dialog
      closes. Blanks around the name do not matter. */
  lemma DialogActs(app: App, pre: string, name: string, post: string, granted: bool, skipped: nat)
    requires ValidFs(app.fs) && app.dialog.Some? && app.dialog.value.value == pre + name + post
    requires Blanks(pre) && Blanks(post) && Trimmed(name) && ProperName(name) && app.dialog.value.mode != Rename(name)
    requires name !in app.entries && Resolve(app.path) + [name] !in app.fs && IsDir(app.fs, Resolve(app.path))
    ensures var mode, app', t := app.dialog.value.mode, Next(app, SubmitDialog(granted), skipped), Resolve(app.path) + [name];
            && app' == app.(dialog := None, fs := app'.fs)
            && (!granted ==> app'.fs == app.fs)
            && (granted && mode == NewFolder ==> app'.fs == app.fs[t := Dir])
            && (granted && mode == NewFile ==> app'.fs == app.fs[t := File([])])
            && (granted && mode.Rename? && ProperName(mode.target) && Resolve(app.path) + [mode.target] in app.fs ==>
                  BroughtExactly(app.fs, Resolve(app.path) + [mode.target], t, Cut, app'.fs))
  {
    var mode := app.dialog.value.mode;
    DialogStep(app, pre, name, post, granted, skipped);
    if !mode.Rename? {
      NodeMade(app.fs, MakeOf(mode, app.path), app.path, name, skipped);
    } else if ProperName(mode.target) && Resolve(app.path) + [mode.target] in app.fs {
      SiblingMoved(app.fs, app.path, mode.target, name, skipped);
    }
  }

  /** From the button: opening the dialog and submitting a free name makes the folder, or the file,
      with nothing else changed but the dialog, which is closed again. */
  lemma NewFromButton(app: App, folder: bool, name: string, skipped: nat)
    requires ValidFs(app.fs) && Trimmed(name) && ProperName(name) && IsDir(app.fs, Resolve(app.path))
    requires name !in app.entries && Resolve(app.path) + [name] !in app.fs
    ensures var shown := Next(app, SetDialog(Some(Dialog(if folder then NewFolder else NewFile, name))), skipped);
            var t := Resolve(app.path) + [name];
            Next(shown, SubmitDialog(true), skipped)
            == app.(dialog := None, fs := app.fs[t := if folder then Dir else File([])])
  {
    var shown := app.(dialog := Some(Dialog(if folder then NewFolder else NewFile, name)));
    assert Next(app, SetDialog(shown.dialog), skipped) == shown;
    assert "" + name + "" == name;
    DialogActs(shown, "", name, "", true, skipped);
  }

  /** With a listed name it asks, about that name and for what the dialog was for, and does
      nothing yet. */
  lemma DialogAsks(app: App, pre: string, name: string, post: string, granted: bool, skipped: nat) returns (make: Make)
    requires app.dialog.Some? && app.dialog.value.value == pre + name + post
    requires Blanks(pre) && Blanks(post) && Trimmed(name) && '/' !in name
    requires name in app.entries && app.dialog.value.mode != Rename(name)
    ensures Next(app, SubmitDialog(granted), skipped)
         == app.(dialog := None, conflict := Some(Conflict(name, app.path, (set e | e in app.entries), make)))
    ensures match app.dialog.value.mode
            case NewFolder => make == MakeFolder
            case NewFile => make == MakeFile
            case Rename(target) => make == RenameFrom(JoinPath(app.path, target))
  {
    TrimExact(pre, name, post);
    make := MakeOf(app.dialog.value.mode, app.path);
    assert Listing(app) == (set e | e in app.entries);
  }

  /** A name that is blank or holds a slash is not accepted: nothing happens, the dialog stays. A
      rename to the same name only closes it. */
  lemma DialogRefuses(app: App, granted: bool, skipped: nat)
    requires app.dialog.Some?
    ensures Blanks(app.dialog.value.value) ==> Next(app, SubmitDialog(granted), skipped) == app
    ensures forall pre, name, post ::
              app.dialog.value.value == pre + name + post && Blanks(pre) && Blanks(post) && Trimmed(name) ==>
                && ('/' in name ==> Next(app, SubmitDialog(granted), skipped) == app)
                && ('/' !in name && app.dialog.value.mode == Rename(name) ==>
                      Next(app, SubmitDialog(granted), skipped) == app.(dialog := None))
  {
    if Blanks(app.dialog.value.value) { TrimBlanks(app.dialog.value.value); }
    forall pre, name, post |
      app.dialog.value.value == pre + name + post && Blanks(pre) && Blanks(post) && Trimmed(name)
      ensures Trim(app.dialog.value.value) == name
    {
      TrimExact(pre, name, post);
    }
  }

  /** Keep both closes the question and touches no other cell; Cancel does nothing else. */
  lemma KeepBothCloses(app: App, granted: bool, skipped: nat)
    ensures var app' := Next(app, KeepBoth(granted), skipped);
            app' == app.(conflict := None, fs := app'.fs) && (app.conflict.None? || !granted ==> app'.fs == app.fs)
    ensures Next(app, CancelConflict, skipped) == app.(conflict := None)
  {}

  /** So does Replace. */
  lemma ReplaceCloses(app: App, removalGranted: bool, granted: bool, skipped: nat)
    ensures var app' := Next(app, Replace(removalGranted, granted), skipped);
            app' == app.(conflict := None, fs := app'.fs) && (app.conflict.None? ==> app'.fs == app.fs)
  {}

  // ---------------------------------------------------------------- paste and delete

  lemma PasteStep(app: App, granted: bool, skipped: nat)
    requires app.clipboard.Some? && app.clipboard.value.name !in app.entries
    ensures var cb := app.clipboard.value;
            var fs' := if granted then Made(app.fs, Bring(cb.from, cb.op), app.path, cb.name, skipped) else app.fs;
            Next(app, Paste(granted), skipped) == app.(clipboard := if cb.op == Cut then None else Some(cb), fs := fs')
  {}

  lemma BroughtToFree(fs: Fs, from: string, op: ClipOp, dir: string, name: string, skipped: nat)
    requires ValidFs(fs) && ProperName(name) && Resolve(dir) + [name] !in fs
    ensures var s, t := Resolve(from), Resolve(dir) + [name];
            BroughtExactly(fs, s, t, op, Made(fs, Bring(from, op), dir, name, skipped))
            <==> s in fs && HasParent(fs, t) && Apart(s, t)
  {
    MakeOnFree(fs, Bring(from, op), dir, name, skipped);
  }

  /** Pasting under a name that is not listed and not there: the clipboard's source is moved or
      copied exactly if that is possible; a cut empties the clipboard, a copy keeps it. */
  lemma PasteActs(app: App, granted: bool, skipped: nat)
    requires ValidFs(app.fs) && app.clipboard.Some? && ProperName(app.clipboard.value.name)
    requires app.clipboard.value.name !in app.entries
    ensures var cb, app' := app.clipboard.value, Next(app, Paste(granted), skipped);
            var s, t := Resolve(cb.from), Resolve(app.path) + [cb.name];
            && app' == app.(clipboard := (if cb.op == Cut then None else Some(cb)), fs := app'.fs)
            && (!granted ==> app'.fs == app.fs)
            && (granted && t !in app.fs ==>
                  (BroughtExactly(app.fs, s, t, cb.op, app'.fs) <==> s in app.fs && HasParent(app.fs, t) && Apart(s, t)))
  {
    var cb := app.clipboard.value;
    PasteStep(app, granted, skipped);
    if granted && Resolve(app.path) + [cb.name] !in app.fs {
      BroughtToFree(app.fs, cb.from, cb.op, app.path, cb.name, skipped);
    }
  }

  /** Pasting under a listed name asks, with the same effect on the clipboard. */
  lemma PasteListed(app: App, granted: bool, skipped: nat)
    requires app.clipboard.Some? && app.clipboard.value.name in app.entries
    ensures var cb := app.clipboard.value;
            var asked := Conflict(cb.name, app.path, (set e | e in app.entries), Bring(cb.from, cb.op));
            Next(app, Paste(granted), skipped) == app.(clipboard := if cb.op == Cut then None else Some(cb), conflict := Some(asked))
  {
    assert Listing(app) == (set e | e in app.entries);
  }

  /** Cut and copy record the entry of the current directory, and change nothing. */
  lemma ClipExact(app: App, name: string, op: ClipOp, skipped: nat)
    requires ProperName(name)
    ensures var app' := Next(app, Clip(name, op), skipped);
            && app'.clipboard.Some? && app' == app.(clipboard := app'.clipboard)
            && app'.clipboard.value.op == op && app'.clipboard.value.name == name
            && Resolve(app'.clipboard.value.from) == Resolve(app.path) + [name]
  {
    JoinResolves(app.path, name);
  }

  /** Delete, once confirmed, removes the entry with all it holds, and nothing else. */
  lemma DeleteExact(app: App, name: string, granted: bool, skipped: nat)
    requires ValidFs(app.fs) && app.pendingDelete == Some(name) && ProperName(name)
    ensures var app', t := Next(app, ConfirmDelete(granted), skipped), Resolve(app.path) + [name];
            && app' == app.(pendingDelete := None, fs := app'.fs)
            && (!granted ==> app'.fs == app.fs)
            && (granted ==> forall q :: if t <= q then q !in app'.fs else SameAt(app.fs, app'.fs, q))
  {
    var t := Resolve(app.path) + [name];
    assert Resolve(JoinPath(app.path, name)) == t by { JoinResolves(app.path, name); }
    RmMeaning(app.fs, t);
  }

  // ---------------------------------------------------------------- Keep both

  /** The listing shows every name that the directory holds. */
  ghost predicate Shows(fs: Fs, dir: string, existing: set<string>) {
    forall name :: Resolve(dir) + [name] in fs ==> name in existing
  }

  lemma UniqueProper(name: string, existing: set<string>)
    requires ProperName(name)
    ensures ProperName(Unique(name, existing))
  {
    var result := Unique(name, existing);
    if name in existing {
      UniqueNameKeepsParts(name, existing, result);
      var n: nat :| LeastFree(name, existing, n) && Base(result) == Base(name) + Numbered(n);
      BaseAndExtension(result);
      assert |Numbered(n)| >= 4;
      assert |result| >= 4;
    }
  }

  lemma KeepBothEvent(app: App, skipped: nat)
    requires app.conflict.Some?
    ensures var c := app.conflict.value;
            Next(app, KeepBoth(true), skipped).fs == Made(app.fs, c.make, c.dir, Unique(c.name, c.existing), skipped)
  {}

  /** Keep both finds a free name when the listing still shows every name of the directory; and
      under a free name it achieves what was asked for, whatever that was, if and only if it is
      possible. */
  lemma KeepBothExact(app: App, skipped: nat)
    requires ValidFs(app.fs) && app.conflict.Some? && ProperName(app.conflict.value.name)
    ensures var c := app.conflict.value;
            var t := Resolve(c.dir) + [Unique(c.name, c.existing)];
            && (Shows(app.fs, c.dir, c.existing) ==> t !in app.fs)
            && (t !in app.fs ==>
                  (Achieved(app.fs, c.make, t, Next(app, KeepBoth(true), skipped).fs) <==> Possible(app.fs, c.make, t)))
  {
    var c := app.conflict.value;
    var name := Unique(c.name, c.existing);
    KeepBothEvent(app, skipped);
    if Resolve(c.dir) + [name] !in app.fs {
      assert ProperName(name) by { UniqueProper(c.name, c.existing); }
      MakeOnFree(app.fs, c.make, c.dir, name, skipped);
    }
  }

  /** A folder or file that is made where something is changes nothing; an upload overwrites a
      file. */
  lemma NodeOnTaken(fs: Fs, make: Make, dir: string, name: string, skipped: nat)
    requires ValidFs(fs) && ProperName(name) && Resolve(dir) + [name] in fs && Mover(make).None?
    ensures var t := Resolve(dir) + [name];
            Made(fs, make, dir, name, skipped) == if make.Upload? && fs[t].File? then fs[t := File(make.contents)] else fs
  {
    var t := Resolve(dir) + [name];
    assert Resolve(JoinPath(dir, name)) == t by { JoinResolves(dir, name); }
    assert HasParent(fs, t);
    if make.MakeFolder? { FolderOnTaken(fs, t); }
  }

  lemma MoverMade(fs: Fs, make: Make, dir: string, name: string, skipped: nat)
    requires ProperName(name) && Mover(make).Some?
    ensures var s, t := Resolve(Mover(make).value.0), Resolve(dir) + [name];
            var moved := if Mover(make).value.1 == Cut then Mv(fs, s, t, skipped).fs else Cp(fs, s, t, skipped).fs;
            Made(fs, make, dir, name, skipped) == moved
  {
    JoinResolves(dir, name);
  }

  /** A move or copy onto a file changes nothing. */
  lemma MoverOntoFile(fs: Fs, make: Make, dir: string, name: string, skipped: nat)
    requires ProperName(name) && Mover(make).Some? && IsFile(fs, Resolve(dir) + [name])
    ensures Made(fs, make, dir, name, skipped) == fs
  {
    MoverMade(fs, make, dir, name, skipped);
    MovedOntoFile(fs, Resolve(Mover(make).value.0), Resolve(dir) + [name], Mover(make).value.1, skipped);
  }

  /** Onto a directory, it brings its source inside, where that is free, if and only if it is
      possible. */
  lemma MoverOntoDir(fs: Fs, make: Make, dir: string, name: string, skipped: nat, s: Path, inside: Path)
    requires ValidFs(fs) && ProperName(name) && Mover(make).Some? && IsDir(fs, Resolve(dir) + [name])
    requires s == Resolve(Mover(make).value.0) && s != []
    requires inside == Resolve(dir) + [name] + [s[|s| - 1]] && inside !in fs
    ensures BroughtExactly(fs, s, inside, Mover(make).value.1, Made(fs, make, dir, name, skipped))
            <==> s in fs && Apart(s, inside)
  {
    var t, op := Resolve(dir) + [name], Mover(make).value.1;
    var moved := if op == Cut then Mv(fs, s, t, skipped).fs else Cp(fs, s, t, skipped).fs;
    assert Made(fs, make, dir, name, skipped) == moved by { MoverMade(fs, make, dir, name, skipped); }
    assert BroughtExactly(fs, s, inside, op, moved) <==> s in fs && Apart(s, inside) by {
      MovedInto(fs, s, t, op, skipped);
    }
  }

  lemma MovedOntoFile(fs: Fs, s: Path, t: Path, op: ClipOp, skipped: nat)
    requires IsFile(fs, t)
    ensures (if op == Cut then Mv(fs, s, t, skipped).fs else Cp(fs, s, t, skipped).fs) == fs
  {}

  lemma FolderOnTaken(fs: Fs, t: Path)
    requires ValidFs(fs) && t in fs && t != []
    ensures Mkdir(fs, t).fs == fs
  {
    var dirs := map q | q in Prefixes(t) :: Dir;
    forall q | q in dirs ensures q in fs {
      if q != t { PrefixIsDir(fs, q, t); }
    }
    assert dirs + fs == fs;
  }

  lemma MovedInto(fs: Fs, s: Path, t: Path, op: ClipOp, skipped: nat)
    requires ValidFs(fs) && IsDir(fs, t) && s != [] && t + [s[|s| - 1]] !in fs
    ensures var inside := t + [s[|s| - 1]];
            var fs' := if op == Cut then Mv(fs, s, t, skipped).fs else Cp(fs, s, t, skipped).fs;
            BroughtExactly(fs, s, inside, op, fs') <==> s in fs && Apart(s, inside)
  {
    var inside := t + [s[|s| - 1]];
    assert Parent(inside) == t && Landing(fs, s, t) == inside == Landing(fs, s, inside);
    MovedToFree(fs, s, inside, op, skipped);
  }

  /** So when the fresh name is taken on the host, because the listing is stale, Keep both does
      what that operation does to what is there. */
  lemma KeepBothTaken(app: App, skipped: nat)
    requires ValidFs(app.fs) && app.conflict.Some? && ProperName(app.conflict.value.name)
    ensures var c, fs' := app.conflict.value, Next(app, KeepBoth(true), skipped).fs;
            var t := Resolve(c.dir) + [Unique(c.name, c.existing)];
            t in app.fs ==>
              && (c.make.Upload? ==> fs' == if app.fs[t].File? then app.fs[t := File(c.make.contents)] else app.fs)
              && (!c.make.Upload? ==> Conserved(app.fs, fs') && (Mover(c.make).None? || app.fs[t].File? ==> fs' == app.fs))
  {
    var c := app.conflict.value;
    var name := Unique(c.name, c.existing);
    KeepBothEvent(app, skipped);
    assert ProperName(name) by { UniqueProper(c.name, c.existing); }
    if Resolve(c.dir) + [name] in app.fs {
      if Mover(c.make).None? {
        NodeOnTaken(app.fs, c.make, c.dir, name, skipped);
      } else if IsFile(app.fs, Resolve(c.dir) + [name]) {
        MoverOntoFile(app.fs, c.make, c.dir, name, skipped);
      }
      if !c.make.Upload? { PerformConserves(OpFor(c.make, c.dir, name), app.fs, skipped); }
    }
  }

  // ---------------------------------------------------------------- Replace

  /** The handler of the Replace button: the removal comes first, and when it is denied or
      fails, or when the action that is to follow is denied, nothing takes the target's place;
      an upload removes nothing. */
  lemma ReplaceEvent(app: App, removalGranted: bool, granted: bool, skipped: nat)
    requires app.conflict.Some?
    ensures var c, fs' := app.conflict.value, Next(app, Replace(removalGranted, granted), skipped).fs;
            var t := Resolve(JoinPath(c.dir, c.name));
            && (c.make.Upload? ==> fs' == if granted then Made(app.fs, c.make, c.dir, c.name, skipped) else app.fs)
            && (!c.make.Upload? && (!removalGranted || t == []) ==> fs' == app.fs)
            && (!c.make.Upload? && removalGranted && t != [] ==>
                  fs' == if granted then Made(Without(app.fs, t), c.make, c.dir, c.name, skipped)
                         else Without(app.fs, t))
  {}

  lemma RemovedTarget(fs: Fs, t: Path)
    requires ValidFs(fs) && t != []
    ensures ValidFs(Without(fs, t)) && t !in Without(fs, t)
    ensures SameOutside(fs, Without(fs, t), {t})
    ensures HasParent(Without(fs, t), t) <==> HasParent(fs, t)
  {
    RmMeaning(fs, t);
    assert !(t <= Parent(t));
  }

  /** What happens after the removal, seen from before it: a node made ... */
  lemma MadeAfterRemoval(fs: Fs, mid: Fs, t: Path, node: Node, fs': Fs)
    requires SameOutside(fs, mid, {t})
    ensures MadeExactly(mid, t, node, fs') <==> MadeExactly(fs, t, node, fs')
  {
    assert forall q :: Outside(q, {t}) ==> SameAt(fs, mid, q);
    assert SameOutside(mid, fs', {t}) <==> SameOutside(fs, fs', {t});
  }

  lemma SourceSurvives(fs: Fs, s: Path, t: Path)
    requires Apart(s, t)
    ensures SameTree(fs, s, Without(fs, t), s)
  {
    forall r: Path ensures t <= s + r ==> false {
      if t <= s + r { PrefixComparable(s, t, s + r); }
    }
  }

  /** ... or something brought. */
  lemma BroughtAfterRemoval(fs: Fs, mid: Fs, s: Path, t: Path, op: ClipOp, fs': Fs)
    requires SameTree(fs, s, mid, s) && SameOutside(fs, mid, {t})
    requires BroughtExactly(mid, s, t, op, fs')
    ensures BroughtExactly(fs, s, t, op, fs')
  {
    assert s + [] == s;
    forall r: Path ensures (s + r in fs <==> t + r in fs') && (s + r in fs ==> fs[s + r] == fs'[t + r]) {
      assert s + r in fs <==> s + r in mid;
      assert s + r in mid <==> t + r in fs';
    }
    var roots := if op == Cut then {s, t} else {t};
    forall q | Outside(q, roots) ensures SameAt(fs, fs', q) {
      assert t in roots && Outside(q, {t});
      assert SameAt(fs, mid, q) && SameAt(mid, fs', q);
    }
  }

  /** Move or copy onto a path that was removed first. */
  lemma MovedAfterRemoval(fs: Fs, make: Make, dir: string, name: string, skipped: nat)
    requires ValidFs(fs) && ProperName(name) && Mover(make).Some?
    ensures var t := Resolve(dir) + [name];
            var fs' := Made(Without(fs, t), make, dir, name, skipped);
            && (Achieved(fs, make, t, fs') <==> Possible(fs, make, t))
            && (!Possible(fs, make, t) ==> fs' == Without(fs, t))
  {
    var s, op, t := Resolve(Mover(make).value.0), Mover(make).value.1, Resolve(dir) + [name];
    var mid := Without(fs, t);
    var fs' := Made(mid, make, dir, name, skipped);
    RemovedTarget(fs, t);
    MakeOnFree(mid, make, dir, name, skipped);
    if Possible(fs, make, t) {
      SourceSurvives(fs, s, t);
      assert s + [] == s;
      BroughtAfterRemoval(fs, mid, s, t, op, fs');
    } else {
      assert fs' == mid;
      assert s + [] == s && t + [] == t;
    }
  }

  /** Replace, for whatever was asked for: the target becomes exactly that and nothing else
      changes if and only if it is possible. A move or copy that is not possible still removes
      the target, and puts nothing in its place. */
  lemma ReplaceExact(app: App, skipped: nat)
    requires ValidFs(app.fs) && app.conflict.Some? && ProperName(app.conflict.value.name)
    ensures var c, fs' := app.conflict.value, Next(app, Replace(true, true), skipped).fs;
            var t := Resolve(c.dir) + [c.name];
            && (Achieved(app.fs, c.make, t, fs') <==> Possible(app.fs, c.make, t))
            && (Mover(c.make).Some? && !Possible(app.fs, c.make, t) ==> fs' == Without(app.fs, t))
  {
    var c := app.conflict.value;
    var t := Resolve(c.dir) + [c.name];
    assert Resolve(JoinPath(c.dir, c.name)) == t by { JoinResolves(c.dir, c.name); }
    ReplaceEvent(app, true, true, skipped);
    if Mover(c.make).Some? {
      MovedAfterRemoval(app.fs, c.make, c.dir, c.name, skipped);
    } else if c.make.Upload? {
      UploadOver(app.fs, c.make, c.dir, c.name, skipped);
    } else {
      RemovedTarget(app.fs, t);
      NodeOnFree(Without(app.fs, t), c.make, c.dir, c.name, skipped);
      MadeAfterRemoval(app.fs, Without(app.fs, t), t, NewNode(c.make).value,
                       Made(Without(app.fs, t), c.make, c.dir, c.name, skipped));
    }
  }

  lemma UploadOver(fs: Fs, make: Make, dir: string, name: string, skipped: nat)
    requires ValidFs(fs) && ProperName(name) && make.Upload?
    ensures var t := Resolve(dir) + [name];
            Achieved(fs, make, t, Made(fs, make, dir, name, skipped)) <==> Possible(fs, make, t)
  {
    var t := Resolve(dir) + [name];
    if IsDir(fs, t) {
      JoinResolves(dir, name);
    } else {
      NodeOnFree(fs, make, dir, name, skipped);
    }
  }

  // ---------------------------------------------------------------- failing runs

  lemma RunSnoc(app: App, events: seq<Event>, e: Event, skipped: nat)
    ensures Run(app, events + [e], skipped) == Next(Run(app, events, skipped), e, skipped)
  {
    assert (events + [e])[..|events|] == events;
  }

  lemma RunThree(app: App, a: Event, b: Event, c: Event, skipped: nat)
    ensures Run(app, [a, b, c], skipped) == Next(Next(Next(app, a, skipped), b, skipped), c, skipped)
  {
    RunSnoc(app, [], a, skipped);
    RunSnoc(app, [a], b, skipped);
    RunSnoc(app, [a, b], c, skipped);
    assert [] + [a] == [a] && [a] + [b] == [a, b] && [a, b] + [c] == [a, b, c];
  }

  lemma {:induction false} RunConcat(app: App, front: seq<Event>, back: seq<Event>, skipped: nat)
    ensures Run(app, front + back, skipped) == Run(Run(app, front, skipped), back, skipped)
    decreases |back|
  {
    if back == [] {
      assert front + back == front;
    } else {
      var most := back[..|back| - 1];
      assert (front + back)[..|front + back| - 1] == front + most;
      RunConcat(app, front, most, skipped);
    }
  }

  /** Copying or cutting an entry and pasting where a name like it is listed asks. */
  lemma PasteAsks(start: App, name: string, op: ClipOp, skipped: nat)
    requires name in start.entries
    ensures var asked := Next(Next(start, Clip(name, op), skipped), Paste(true), skipped);
            && asked.fs == start.fs
            && asked.conflict == Some(Conflict(name, start.path, Listing(start), Bring(JoinPath(start.path, name), op)))
  {}

  /** Pasting a file onto itself and choosing Replace destroys it: the removed target was the
      source. */
  lemma ReplaceOntoItself(dir: string, name: string, contents: seq<byte>, op: ClipOp, skipped: nat)
    requires ProperName(name) && Resolve(dir) == []
    ensures var start := App(dir, [name], None, None, None, None, [], map[[] := Dir, [name] := File(contents)]);
            var last := Run(start, [Clip(name, op), Paste(true), Replace(true, true)], skipped);
            last.fs == map[[] := Dir] && !Conserved(start.fs, last.fs)
  {
    var start := App(dir, [name], None, None, None, None, [], map[[] := Dir, [name] := File(contents)]);
    var asked := Next(Next(start, Clip(name, op), skipped), Paste(true), skipped);
    RunThree(start, Clip(name, op), Paste(true), Replace(true, true), skipped);
    PasteAsks(start, name, op, skipped);
    assert Resolve(JoinPath(dir, name)) == [name] == Resolve(dir) + [name] by { JoinResolves(dir, name); }
    OneFileReplaced(asked, name, contents, skipped);
  }

  lemma OneFileReplaced(asked: App, name: string, contents: seq<byte>, skipped: nat)
    requires asked.fs == map[[] := Dir, [name] := File(contents)] && ProperName(name)
    requires asked.conflict.Some? && asked.conflict.value.name == name
    requires Resolve(asked.conflict.value.dir) + [name] == [name]
    requires asked.conflict.value.make.Bring? && Resolve(asked.conflict.value.make.from) == [name]
    ensures var last := Next(asked, Replace(true, true), skipped);
            last.fs == map[[] := Dir] && !Conserved(asked.fs, last.fs)
  {
    var last := Next(asked, Replace(true, true), skipped);
    assert last.fs == Without(asked.fs, [name]) by {
      OneFileValid(name, contents);
      ReplaceExact(asked, skipped);
    }
    assert last.fs == map[[] := Dir];
    GoneFile(asked.fs, [name], last.fs);
  }

  lemma OneFileValid(name: string, contents: seq<byte>)
    ensures ValidFs(map[[] := Dir, [name] := File(contents)])
  {
    assert Parent([name]) == [];
  }

  /** A file system that has files cannot be conserved in one that has none. */
  lemma GoneFile(fs: Fs, p: Path, fs': Fs)
    requires IsFile(fs, p) && forall q :: q in fs' ==> fs'[q].Dir?
    ensures !Conserved(fs, fs')
  {
    forall m: map<Path, Path> ensures !Carries(m, fs, fs') {
      assert p in m ==> !IsFile(fs', m[p]);
    }
  }

  function TwoFiles(folder: string, name: string, kept: seq<byte>, lost: seq<byte>): Fs {
    map[[] := Dir, [name] := File(kept), [folder] := Dir, [folder, name] := File(lost)]
  }

  function Tree(folder: string, name: string, lost: seq<byte>): Fs {
    map[[] := Dir, [folder] := Dir, [folder, name] := File(lost)]
  }

  /** A file is cut or copied, then deleted. */
  function Vanish(name: string, op: ClipOp): seq<Event> {
    [Clip(name, op), AskDelete(Some(name)), ConfirmDelete(true)]
  }

  /** In another directory, which lists a file of that name, the user pastes. */
  function PasteThere(sub: string, name: string): seq<Event> { [Navigate(sub), Listed([name]), Paste(true)] }

  /** The other failing case: the clipboard keeps the name of a deleted file. Pasting it where
      that name exists and choosing Replace removes the target and brings nothing. */
  lemma ReplaceByNothing(dir: string, folder: string, name: string, kept: seq<byte>, lost: seq<byte>, op: ClipOp, skipped: nat)
    requires ProperName(folder) && ProperName(name) && folder != name && Resolve(dir) == []
    ensures var start := App(dir, [name, folder], None, None, None, None, [], TwoFiles(folder, name, kept, lost));
            var events := Vanish(name, op) + PasteThere(JoinPath(dir, folder), name);
            var asked, last := Run(start, events, skipped), Run(start, events + [Replace(true, true)], skipped);
            && asked.fs == Tree(folder, name, lost)
            && last.fs == map[[] := Dir, [folder] := Dir] && !Conserved(asked.fs, last.fs)
  {
    var start := App(dir, [name, folder], None, None, None, None, [], TwoFiles(folder, name, kept, lost));
    var sub := JoinPath(dir, folder);
    var events := Vanish(name, op) + PasteThere(sub, name);
    assert Resolve(JoinPath(dir, name)) == [name] by { JoinResolves(dir, name); }
    assert Resolve(sub) + [name] == [folder, name] by { JoinResolves(dir, folder); }
    var gone := Run(start, Vanish(name, op), skipped);
    VanishRun(start, name, op, skipped);
    var asked := Run(gone, PasteThere(sub, name), skipped);
    PasteThereRun(gone, sub, name, skipped);
    RunConcat(start, Vanish(name, op), PasteThere(sub, name), skipped);
    RunSnoc(start, events, Replace(true, true), skipped);
    assert asked.fs == Tree(folder, name, lost) by {
      assert [folder][0] != name && [folder, name][0] != name && [name] <= [name];
      assert !([name] <= [folder]) && !([name] <= [folder, name]);
    }
    TreeReplaced(asked, folder, name, lost, skipped);
  }

  lemma TreeReplaced(asked: App, folder: string, name: string, lost: seq<byte>, skipped: nat)
    requires asked.fs == Tree(folder, name, lost) && ProperName(name) && folder != name
    requires asked.conflict.Some? && asked.conflict.value.name == name
    requires Resolve(asked.conflict.value.dir) + [name] == [folder, name]
    requires asked.conflict.value.make.Bring? && Resolve(asked.conflict.value.make.from) == [name]
    ensures var last := Next(asked, Replace(true, true), skipped);
            last.fs == map[[] := Dir, [folder] := Dir] && !Conserved(asked.fs, last.fs)
  {
    var last := Next(asked, Replace(true, true), skipped);
    assert [name][0] != [folder][0];
    assert last.fs == Without(asked.fs, [folder, name]) by {
      TreeValid(folder, name, lost);
      ReplaceExact(asked, skipped);
    }
    assert last.fs == map[[] := Dir, [folder] := Dir];
    GoneFile(asked.fs, [folder, name], last.fs);
  }

  lemma TreeValid(folder: string, name: string, lost: seq<byte>)
    ensures ValidFs(Tree(folder, name, lost))
  {
    assert Parent([folder]) == [] && Parent([folder, name]) == [folder];
  }

  lemma VanishRun(start: App, name: string, op: ClipOp, skipped: nat)
    requires Resolve(JoinPath(start.path, name)) != []
    ensures var gone := Run(start, Vanish(name, op), skipped);
            gone == start.(clipboard := Some(Clipboard(JoinPath(start.path, name), name, op)), pendingDelete := None,
                           fs := Without(start.fs, Resolve(JoinPath(start.path, name))))
  {
    RunThree(start, Clip(name, op), AskDelete(Some(name)), ConfirmDelete(true), skipped);
  }

  lemma PasteThereRun(gone: App, sub: string, name: string, skipped: nat)
    requires gone.clipboard.Some? && gone.clipboard.value.name == name
    ensures var asked, cb := Run(gone, PasteThere(sub, name), skipped), gone.clipboard.value;
            && asked.fs == gone.fs
            && asked.conflict == Some(Conflict(name, sub, {name}, Bring(cb.from, cb.op)))
  {
    RunThree(gone, Navigate(sub), Listed([name]), Paste(true), skipped);
    var there := gone.(path := sub, entries := [name]);
    assert name in there.entries && Listing(there) == {name};
  }

  // ---------------------------------------------------------------- uploads that overwrite

  lemma OverwritingStep(app: App, e: Event, name: string, was: seq<byte>, now: seq<byte>, skipped: nat)
    requires ValidFs(app.fs) && !Consents(e) && !e.Elsewhere? && was != now
    requires IsFile(app.fs, [name]) && app.fs[[name]] == File(was)
    requires Sent(app, e).Some? && Sent(app, e).value.WriteFile? && Resolve(Sent(app, e).value.path) == [name]
    requires Sent(app, e).value.contents == now
    ensures Next(app, e, skipped).fs == app.fs[[name] := File(now)] && !Conserved(app.fs, Next(app, e, skipped).fs)
  {
    SentEffect(app, e, skipped);
    assert HasParent(app.fs, [name]);
    OverwritingLoses(app.fs, [name], now);
  }

  lemma ChosenThenAppeared(start: App, name: string, now: seq<byte>, appeared: Fs, skipped: nat)
    requires start.reading == [] && start.entries == []
    ensures Next(Next(start, ChooseFile(name, now), skipped), Elsewhere(appeared), skipped)
         == start.(reading := [Reading(name, now, start.path, {})], fs := appeared)
  {
    assert Listing(start) == {};
    assert [] + [Reading(name, now, start.path, {})] == [Reading(name, now, start.path, {})];
  }

  /** A failing run: a file of the name appears while the chosen file is being read; the upload
      overwrites it without asking. */
  lemma UploadOverwrites(dir: string, name: string, was: seq<byte>, now: seq<byte>, skipped: nat)
    requires ProperName(name) && Resolve(dir) == [] && was != now
    ensures var start := App(dir, [], None, None, None, None, [], map[[] := Dir]);
            var appeared := map[[] := Dir, [name] := File(was)];
            var last := Run(start, [ChooseFile(name, now), Elsewhere(appeared), FileRead(0, true)], skipped);
            last.fs == map[[] := Dir, [name] := File(now)] && !Conserved(appeared, last.fs)
  {
    var start := App(dir, [], None, None, None, None, [], map[[] := Dir]);
    var appeared := map[[] := Dir, [name] := File(was)];
    RunThree(start, ChooseFile(name, now), Elsewhere(appeared), FileRead(0, true), skipped);
    ChosenThenAppeared(start, name, now, appeared, skipped);
    var before := start.(reading := [Reading(name, now, dir, {})], fs := appeared);
    RootChild(dir, name);
    OneFileValid(name, was);
    OverwritingStep(before, FileRead(0, true), name, was, now, skipped);
  }

  lemma RootChild(dir: string, name: string)
    requires ProperName(name) && Resolve(dir) == []
    ensures Resolve(JoinPath(dir, name)) == [name]
  {
    JoinResolves(dir, name);
    assert [] + [name] == [name];
  }

  lemma ChosenThenAsked(start: App, name: string, now: seq<byte>, skipped: nat)
    requires start.reading == [] && start.entries == [name]
    ensures Next(Next(start, ChooseFile(name, now), skipped), FileRead(0, true), skipped)
         == start.(conflict := Some(Conflict(name, start.path, {name}, Upload(now))))
  {
    var one := [Reading(name, now, start.path, {name})];
    assert name in start.entries && Listing(start) == {name};
    assert [] + one == one && one[..0] + one[1..] == [];
  }

  /** The other one: the upload asks, the user keeps both, and the fresh name, which the listing
      does not show, is that of a file with other content. */
  lemma KeepBothOverwrites(dir: string, name: string, was: seq<byte>, now: seq<byte>, skipped: nat)
    requires ProperName(name) && Resolve(dir) == [] && was != now
    ensures var second := Unique(name, {name});
            var start := App(dir, [name], None, None, None, None, [], map[[] := Dir, [second] := File(was)]);
            var last := Run(start, [ChooseFile(name, now), FileRead(0, true), KeepBoth(true)], skipped);
            last.fs == map[[] := Dir, [second] := File(now)] && !Conserved(start.fs, last.fs)
  {
    var second := Unique(name, {name});
    var start := App(dir, [name], None, None, None, None, [], map[[] := Dir, [second] := File(was)]);
    RunThree(start, ChooseFile(name, now), FileRead(0, true), KeepBoth(true), skipped);
    ChosenThenAsked(start, name, now, skipped);
    var asked := start.(conflict := Some(Conflict(name, dir, {name}, Upload(now))));
    UniqueProper(name, {name});
    RootChild(dir, second);
    OneFileValid(second, was);
    OverwritingStep(asked, KeepBoth(true), second, was, now, skipped);
  }

  // ---------------------------------------------------------------- renames

  lemma SiblingsApart(dir: Path, a: string, b: string)
    requires a != b
    ensures Apart(dir + [a], dir + [b])
  {
    assert (dir + [a])[|dir|] != (dir + [b])[|dir|];
  }

  /** A listing of a directory: proper names only. */
  predicate ProperListing(names: seq<string>) { forall i :: 0 <= i < |names| ==> ProperName(names[i]) }

  /** The conflict that the rename dialog opens is about another listed name. */
  lemma RenameAsks(app: App, asked: bool, skipped: nat)
    requires app.conflict.None? && app.dialog.Some? && app.dialog.value.mode.Rename?
    ensures var app' := Next(app, SubmitDialog(asked), skipped);
            app'.conflict.Some? ==>
              var c := app'.conflict.value;
              && app'.fs == app.fs && c.dir == app.path
              && c.name in app.entries && c.name != app.dialog.value.mode.target
              && c.make == RenameFrom(JoinPath(app.path, app.dialog.value.mode.target))
  {}

  /** For a rename the side condition of Replace follows from the guards of the dialog: choosing
      Replace does exactly what it says if and only if the renamed entry is still there. */
  lemma RenameReplaces(app: App, asked: bool, skipped: nat)
    requires ValidFs(app.fs) && ProperListing(app.entries) && app.conflict.None?
    requires app.dialog.Some? && app.dialog.value.mode.Rename? && ProperName(app.dialog.value.mode.target)
    ensures var app' := Next(app, SubmitDialog(asked), skipped);
            app'.conflict.Some? ==>
              var s := Resolve(app.path) + [app.dialog.value.mode.target];
              var t := Resolve(app.path) + [app'.conflict.value.name];
              && app'.fs == app.fs
              && (BroughtExactly(app.fs, s, t, Cut, Next(app', Replace(true, true), skipped).fs) <==> s in app.fs)
  {
    var app' := Next(app, SubmitDialog(asked), skipped);
    RenameAsks(app, asked, skipped);
    if app'.conflict.Some? {
      var dir, target, value := Resolve(app.path), app.dialog.value.mode.target, app'.conflict.value.name;
      assert Resolve(JoinPath(app.path, target)) == dir + [target] by { JoinResolves(app.path, target); }
      SiblingsApart(dir, target, value);
      assert Parent(dir + [target]) == dir == Parent(dir + [value]);
      assert dir + [target] in app.fs ==> HasParent(app.fs, dir + [target]);
      ReplaceExact(app', skipped);
    }
  }
}
