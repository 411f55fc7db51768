/** The directory listing from end to end: the text of `listDir`, the tokens and words the host's
    shell makes of it, what `find` prints for the format it is given, the chunks in which that
    comes back, and the entries the parser reads. */
module ListCommand {
  import opened Text
  import opened Base64
  import opened FileSystem
  import opened ShellLexer
  import opened Shell
  import opened SshExec
  import opened Adapter
  import opened Listing
  import CommandMeaning
  import FilesLaws
  import Utf8

  // ---------------------------------------------------------------- the text

  /** `%y\t%s\t%m\t%u\t%g\t%T@\t%f\n`, with its backslashes. */
  const FIND_PRINTF := FiveDirectives("%T@\\t" + "%f\\n")

  /** Five directives with their tabs, before the rest of a format. */
  function FiveDirectives(rest: string): string {
    "%y\\t" + ("%s\\t" + ("%m\\t" + ("%u\\t" + ("%g\\t" + rest))))
  }

  lemma DirectivesNulFree(rest: string)
    requires NUL !in rest
    ensures NUL !in FiveDirectives(rest)
  {
    var g := "%g\\t" + rest;
    var u := "%u\\t" + g;
    var m := "%m\\t" + u;
    NulFreeConcat("%g\\t", rest);
    NulFreeConcat("%u\\t", g);
    NulFreeConcat("%m\\t", u);
    NulFreeConcat("%s\\t", m);
    NulFreeConcat("%y\\t", "%s\\t" + m);
  }

  /** The text of `listDir`, for any format. */
  function FindText(path: string, format: string): string {
    "find " + Quote(path) + " -maxdepth 1" + " -mindepth 1" + " -printf " + Quote(format)
  }

  function ListDir(path: string): string { FindText(path, FIND_PRINTF) }

  function FormatOption(format: string): seq<Piece> { [Plain("-printf"), Arg(format)] }

  function MinOptions(format: string): seq<Piece> { [Plain("-mindepth")] + ([Plain("1")] + FormatOption(format)) }

  function Options(format: string): seq<Piece> { [Plain("-maxdepth")] + ([Plain("1")] + MinOptions(format)) }

  lemma FormatRenders(format: string)
    ensures Render(FormatOption(format)) == "-printf " + Quote(format)
  {
    RenderPair(Plain("-printf"), Arg(format));
    assert "-printf" + " " == "-printf ";
  }

  /** An option with the number 1, before the rest of a text. */
  function Depth(word: string, text: string): string { word + " " + ("1" + " " + text) }

  lemma DepthRenders(word: string, rest: seq<Piece>, text: string, last: string)
    requires rest != [] && Render(rest) == text + last
    ensures Render([Plain(word)] + ([Plain("1")] + rest)) == Depth(word, text) + last
  {
    CommandMeaning.Prefixed("1", rest, text, last, "1" + " " + text);
    CommandMeaning.Prefixed(word, [Plain("1")] + rest, "1" + " " + text, last, Depth(word, text));
  }

  function OptionsText(): string { Depth("-maxdepth", Depth("-mindepth", "-printf ")) }

  lemma OptionsRender(format: string)
    ensures Render(Options(format)) == OptionsText() + Quote(format)
  {
    FormatRenders(format);
    DepthRenders("-mindepth", FormatOption(format), "-printf ", Quote(format));
    DepthRenders("-maxdepth", MinOptions(format), Depth("-mindepth", "-printf "), Quote(format));
  }

  function Argv(path: string, format: string): seq<string> {
    ["find", path, "-maxdepth", "1", "-mindepth", "1", "-printf", format]
  }

  function FindPieces(path: string, format: string): seq<Piece> {
    [Plain("find"), Arg(path), Plain("-maxdepth"), Plain("1"), Plain("-mindepth"), Plain("1"), Plain("-printf"), Arg(format)]
  }

  /** An option between two texts, with the spaces on its other side. */
  lemma DepthShift(front: string, option: string, word: string, text: string)
    requires option == " " + word + " 1"
    ensures front + " " + Depth(word, text) == front + option + (" " + text)
  {
    assert " " + "1" == " 1";
    assert front + " " + (word + " " + ("1" + " " + text)) == front + (" " + word + (" " + "1")) + (" " + text);
  }

  lemma TextShape(p: string, q: string)
    ensures "find " + p + " -maxdepth 1" + " -mindepth 1" + " -printf " + q == "find" + " " + (p + " " + (OptionsText() + q))
  {
    var front := "find " + p;
    DepthShift(front, " -maxdepth 1", "-maxdepth", Depth("-mindepth", "-printf "));
    DepthShift(front + " -maxdepth 1", " -mindepth 1", "-mindepth", "-printf ");
    assert " " + "-printf " == " -printf ";
    assert front + " -maxdepth 1" + (" " + Depth("-mindepth", "-printf ")) == front + " -maxdepth 1" + " " + Depth("-mindepth", "-printf ");
    assert "find" + " " == "find ";
    Regroup("find ", p, " ", OptionsText(), q);
  }

  lemma Regroup(a: string, b: string, c: string, d: string, e: string)
    ensures a + b + c + d + e == a + (b + c + (d + e))
  {}

  lemma FindRenders(path: string, format: string)
    ensures FindText(path, format) == Render(FindPieces(path, format))
  {
    var options := Options(format);
    OptionsRender(format);
    RenderCons(Arg(path), options);
    RenderCons(Plain("find"), [Arg(path)] + options);
    assert [Plain("find")] + ([Arg(path)] + options) == FindPieces(path, format);
    TextShape(Quote(path), Quote(format));
  }

  lemma FindWordsPlain()
    ensures PlainWord("find") && PlainWord("-maxdepth") && PlainWord("1") && PlainWord("-mindepth") && PlainWord("-printf")
  {}

  lemma PieceFits(path: string, format: string, i: nat)
    requires NUL !in path && NUL !in format && i < 8
    ensures Renders(FindPieces(path, format)[i]) && TokenOf(FindPieces(path, format)[i]) == Word(Argv(path, format)[i])
  {
    FindWordsPlain();
  }

  /** The host's shell makes one command of it, with the path and the format each as one word. */
  lemma FindWords(path: string, format: string)
    requires NUL !in path && NUL !in format
    ensures Pipeline(FindText(path, format)) == Some([Stage(Argv(path, format), None)])
  {
    FindRenders(path, format);
    forall i | 0 <= i < 8
      ensures Renders(FindPieces(path, format)[i]) && TokenOf(FindPieces(path, format)[i]) == Word(Argv(path, format)[i])
    {
      PieceFits(path, format, i);
    }
    WordsPipeline(FindPieces(path, format), Argv(path, format));
  }

  // ---------------------------------------------------------------- find

  /** What `find` prints for one entry and one directive of its format. */
  function Directive(c: char, e: HostEntry): Option<string> {
    match c
    case 'y' => Some([e.code])
    case 's' => Some(Print(e.size, 10))
    case 'm' => Some(Print(e.mode, 8))
    case 'u' => Some(e.owner)
    case 'g' => Some(e.group)
    case 'f' => Some(e.name)
    case _ => None
  }

  function Then(front: string, rest: Option<string>): Option<string> {
    match rest case Some(s) => Some(front + s) case None => None
  }

  /** `-printf format` for one entry; None for directives and escapes outside the model. */
  function Printf(format: string, e: HostEntry): Option<string> {
    if format == "" then Some("")
    else if format[0] == '%' then
      if |format| >= 3 && format[1] == 'T' && format[2] == '@' then Then(PrintTime(e.ticks), Printf(format[3..], e))
      else if |format| >= 2 && Directive(format[1], e).Some? then
        Then(Directive(format[1], e).value, Printf(format[2..], e))
      else None
    else if format[0] == '\\' then
      if |format| >= 2 && format[1] == 't' then Then("\t", Printf(format[2..], e))
      else if |format| >= 2 && format[1] == 'n' then Then("\n", Printf(format[2..], e))
      else None
    else Then([format[0]], Printf(format[1..], e))
  }

  lemma PrintfField(d: string, field: string, rest: string, e: HostEntry, t: string)
    requires |d| == 4 && d[0] == '%' && d[2] == '\\' && d[3] == 't'
    requires Directive(d[1], e) == Some(field) && Printf(rest, e) == Some(t + "\n")
    ensures Printf(d + rest, e) == Some((field + "\t" + t) + "\n")
  {
    var tab := "\\t" + rest;
    assert tab[2..] == rest && Printf(tab, e) == Some("\t" + (t + "\n"));
    var format := d + rest;
    assert format[2..] == tab && format[0] == '%' && format[1] == d[1];
    assert Printf(format, e) == Some(field + ("\t" + (t + "\n")));
    assert field + ("\t" + (t + "\n")) == (field + "\t" + t) + "\n";
  }

  lemma PrintfTime(rest: string, e: HostEntry, t: string)
    requires Printf(rest, e) == Some(t + "\n")
    ensures Printf("%T@\\t" + rest, e) == Some((PrintTime(e.ticks) + "\t" + t) + "\n")
  {
    var tab := "\\t" + rest;
    assert tab[2..] == rest && Printf(tab, e) == Some("\t" + (t + "\n"));
    var format := "%T@\\t" + rest;
    assert format[3..] == tab;
    assert PrintTime(e.ticks) + ("\t" + (t + "\n")) == (PrintTime(e.ticks) + "\t" + t) + "\n";
  }

  lemma PrintfName(e: HostEntry)
    ensures Printf("%f\\n", e) == Some(e.name + "\n")
  {
    var end := "\\n";
    assert end[2..] == "" && Printf(end, e) == Some("\n" + "");
    var format := "%f\\n";
    assert format[2..] == end && Directive(format[1], e) == Some(e.name);
    assert Printf(format, e) == Some(e.name + ("\n" + ""));
    assert e.name + ("\n" + "") == e.name + "\n";
  }

  lemma TabbedCons(field: string, fields: seq<string>, last: string)
    ensures Tabbed([field] + fields, last) == field + "\t" + Tabbed(fields, last)
  {
    assert ([field] + fields)[1..] == fields;
  }

  function FiveFields(f: seq<string>, t: string): string
    requires |f| >= 5
  {
    f[0] + "\t" + (f[1] + "\t" + (f[2] + "\t" + (f[3] + "\t" + (f[4] + "\t" + t))))
  }

  lemma DirectivesMean(e: HostEntry, rest: string, t: string)
    requires Printf(rest, e) == Some(t + "\n")
    ensures Printf(FiveDirectives(rest), e) == Some(FiveFields(FieldsOf(e), t) + "\n")
  {
    var f := FieldsOf(e);
    var g := "%g\\t" + rest;
    var u := "%u\\t" + g;
    var m := "%m\\t" + u;
    var s := "%s\\t" + m;
    PrintfField("%g\\t", f[4], rest, e, t);
    PrintfField("%u\\t", f[3], g, e, f[4] + "\t" + t);
    PrintfField("%m\\t", f[2], u, e, f[3] + "\t" + (f[4] + "\t" + t));
    PrintfField("%s\\t", f[1], m, e, f[2] + "\t" + (f[3] + "\t" + (f[4] + "\t" + t)));
    PrintfField("%y\\t", f[0], s, e, f[1] + "\t" + (f[2] + "\t" + (f[3] + "\t" + (f[4] + "\t" + t))));
  }

  lemma BodyFields(f: seq<string>, name: string)
    requires |f| == 6
    ensures Tabbed(f, name) == FiveFields(f, f[5] + "\t" + name)
  {
    var f5 := [f[5]];
    var f4, f3, f2, f1 := [f[4]] + f5, f[3..], f[2..], f[1..];
    TabbedCons(f[5], [], name);
    assert [f[5]] + [] == f5 && Tabbed([], name) == name;
    TabbedCons(f[4], f5, name);
    assert f3 == [f[3]] + f4 && f2 == [f[2]] + f3 && f1 == [f[1]] + f2 && f == [f[0]] + f1;
    TabbedCons(f[3], f4, name);
    TabbedCons(f[2], f3, name);
    TabbedCons(f[1], f2, name);
    TabbedCons(f[0], f1, name);
  }

  lemma RestMeans(e: HostEntry)
    ensures Printf("%T@\\t" + "%f\\n", e) == Some((PrintTime(e.ticks) + "\t" + e.name) + "\n")
  {
    PrintfName(e);
    PrintfTime("%f\\n", e, e.name);
  }

  /** The format string of the adapter prints the seven fields and a line end. */
  lemma FormatMeans(e: HostEntry, rest: string)
    requires Printf(rest, e) == Some((PrintTime(e.ticks) + "\t" + e.name) + "\n")
    ensures Printf(FiveDirectives(rest), e) == Some(PrintBody(e) + "\n")
  {
    DirectivesMean(e, rest, PrintTime(e.ticks) + "\t" + e.name);
    BodyFields(FieldsOf(e), e.name);
  }

  function PrintfAll(format: string, entries: seq<HostEntry>): Option<string> {
    if entries == [] then Some("")
    else match Printf(format, entries[0])
      case Some(s) => Then(s, PrintfAll(format, entries[1..]))
      case None => None
  }

  /** For these entries the format prints the lines that the parser is made for. */
  predicate PrintsLines(format: string, entries: seq<HostEntry>) {
    forall i :: 0 <= i < |entries| ==> Printf(format, entries[i]) == Some(PrintBody(entries[i]) + "\n")
  }

  lemma FindFormat(entries: seq<HostEntry>)
    ensures PrintsLines(FIND_PRINTF, entries)
  {
    forall i | 0 <= i < |entries| ensures Printf(FIND_PRINTF, entries[i]) == Some(PrintBody(entries[i]) + "\n") {
      RestMeans(entries[i]);
      FormatMeans(entries[i], "%T@\\t" + "%f\\n");
    }
  }

  lemma {:induction false} LinesPrinted(format: string, entries: seq<HostEntry>)
    requires PrintsLines(format, entries)
    ensures PrintfAll(format, entries) == Some(PrintListing(entries))
    decreases |entries|
  {
    if entries != [] { LinesPrinted(format, entries[1..]); }
  }

  /** What the host knows about an entry besides its kind and content. */
  datatype Attributes = Attributes(dirSize: nat, mode: nat, owner: string, group: string, ticks: int)

  /** How the host reads directories: in which order, and what else it knows. */
  datatype Reader = Reader(order: Path -> seq<string>, attributes: Path -> Attributes)

  /** Every child once, and nothing else. */
  ghost predicate ReadsAll(r: Reader, fs: Fs, dir: Path) {
    && (forall name :: name in r.order(dir) <==> dir + [name] in fs)
    && (forall i, j :: 0 <= i < j < |r.order(dir)| ==> r.order(dir)[i] != r.order(dir)[j])
  }

  function EntryOf(r: Reader, fs: Fs, p: Path): HostEntry
    requires p in fs && p != []
  {
    var a := r.attributes(p);
    match fs[p]
    case Dir => HostEntry('d', a.dirSize, a.mode, a.owner, a.group, a.ticks, p[|p| - 1])
    case File(content) => HostEntry('f', |content|, a.mode, a.owner, a.group, a.ticks, p[|p| - 1])
  }

  predicate AllThere(r: Reader, fs: Fs, dir: Path) {
    forall i :: 0 <= i < |r.order(dir)| ==> dir + [r.order(dir)[i]] in fs
  }

  function Entries(r: Reader, fs: Fs, dir: Path): seq<HostEntry>
    requires AllThere(r, fs, dir)
  {
    seq(|r.order(dir)|, i requires 0 <= i < |r.order(dir)| => EntryOf(r, fs, dir + [r.order(dir)[i]]))
  }

  /** `find path -maxdepth 1 -mindepth 1 -printf format`. */
  function Find(r: Reader, argv: seq<string>, fs: Fs): Outcome {
    if |argv| == 8 && argv[0] == "find" && Absolute(argv[1])
       && argv[2..7] == ["-maxdepth", "1", "-mindepth", "1", "-printf"]
    then
      var dir := Resolve(argv[1]);
      if dir !in fs then Done(fs, [], 1)
      else if fs[dir].File? then Done(fs, [], 0)
      else if !AllThere(r, fs, dir) then Unsupported
      else match PrintfAll(argv[7], Entries(r, fs, dir))
        case Some(text) => Done(fs, Utf8.EncodeText(text), 0)
        case None => Unsupported
    else Unsupported
  }

  /** A command line that is one `find`. */
  function RunFind(r: Reader, text: string, fs: Fs): Outcome {
    match Pipeline(text)
    case None => Unsupported
    case Some(stages) => if |stages| == 1 && stages[0].into.None? then Find(r, stages[0].argv, fs) else Unsupported
  }

  lemma FindMeans(r: Reader, path: string, format: string, fs: Fs)
    requires PathOk(path) && NUL !in format && IsDir(fs, Resolve(path)) && AllThere(r, fs, Resolve(path))
    requires PrintsLines(format, Entries(r, fs, Resolve(path)))
    ensures RunFind(r, FindText(path, format), fs)
         == Done(fs, Utf8.EncodeText(PrintListing(Entries(r, fs, Resolve(path)))), 0)
  {
    FindWords(path, format);
    LinesPrinted(format, Entries(r, fs, Resolve(path)));
    var argv := Argv(path, format);
    assert argv[2..7] == ["-maxdepth", "1", "-mindepth", "1", "-printf"];
  }

  /** For every absolute path, the text lists the directory: it prints its entries in the format,
      and changes nothing. */
  lemma ListMeans(r: Reader, path: string, fs: Fs)
    requires PathOk(path) && IsDir(fs, Resolve(path)) && AllThere(r, fs, Resolve(path))
    ensures RunFind(r, ListDir(path), fs)
         == Done(fs, Utf8.EncodeText(PrintListing(Entries(r, fs, Resolve(path)))), 0)
  {
    FindFormat(Entries(r, fs, Resolve(path)));
    DirectivesNulFree("%T@\\t" + "%f\\n");
    FindMeans(r, path, FIND_PRINTF, fs);
  }

  // ---------------------------------------------------------------- what the file manager learns

  function NamesOf(entries: seq<FileEntry>): seq<string> {
    seq(|entries|, i requires 0 <= i < |entries| => entries[i].name)
  }

  ghost predicate PlainOwners(r: Reader) {
    forall p :: FieldOk(r.attributes(p).owner) && FieldOk(r.attributes(p).group)
  }

  /** The parsed names are the host's, in its order. */
  lemma NamesInOrder(r: Reader, fs: Fs, dir: Path)
    requires AllThere(r, fs, dir)
    ensures NamesOf(ExpectedAll(Entries(r, fs, dir))) == r.order(dir)
  {}

  /** The listing from end to end: through quoting, tokens, format, UTF-8 in chunks that begin at
      characters, and the parser, the file manager gets exactly the entries of the directory, in
      the host's order, if and only if no name holds a line end. */
  lemma ListingEndToEnd(r: Reader, path: string, fs: Fs, events: seq<StreamEvent>)
    requires PathOk(path) && IsDir(fs, Resolve(path)) && ReadsAll(r, fs, Resolve(path)) && PlainOwners(r)
    requires RunFind(r, ListDir(path), fs).Done? ==>
               var done := RunFind(r, ListDir(path), fs);
               Concat(Chunks(events, false)) == done.stdout && FirstClose(events) == Some(Some(done.status))
    requires forall i :: 0 <= i < |Chunks(events, false)| ==> Utf8.BeginsWhole(Chunks(events, false)[i])
    ensures AllThere(r, fs, Resolve(path)) && ResultOf(Utf8.Decode, events).Some?
    ensures var result := ResultOf(Utf8.Decode, events).value;
            && result.exitCode == Some(0)
            && (ParseListDir(result.stdout) == Some(ExpectedAll(Entries(r, fs, Resolve(path))))
                <==> forall name :: Resolve(path) + [name] in fs ==> '\n' !in name)
  {
    var dir := Resolve(path);
    assert AllThere(r, fs, dir) by { assert forall i :: 0 <= i < |r.order(dir)| ==> r.order(dir)[i] in r.order(dir); }
    var entries := Entries(r, fs, dir);
    ListMeans(r, path, fs);
    EntriesPlain(r, fs, dir);
    StreamParsed(entries, events);
  }

  /** A printed listing, streamed in chunks that begin at characters. */
  lemma StreamParsed(entries: seq<HostEntry>, events: seq<StreamEvent>)
    requires forall i :: 0 <= i < |entries| ==> PlainFields(entries[i])
    requires Concat(Chunks(events, false)) == Utf8.EncodeText(PrintListing(entries)) && FirstClose(events).Some?
    requires forall i :: 0 <= i < |Chunks(events, false)| ==> Utf8.BeginsWhole(Chunks(events, false)[i])
    ensures ParseListDir(ResultOf(Utf8.Decode, events).value.stdout) == Some(ExpectedAll(entries))
            <==> forall i :: 0 <= i < |entries| ==> '\n' !in entries[i].name
  {
    Utf8.ExecText(PrintListing(entries), events);
    ListingRoundTrip(entries);
  }

  lemma EntriesPlain(r: Reader, fs: Fs, dir: Path)
    requires ReadsAll(r, fs, dir) && PlainOwners(r) && AllThere(r, fs, dir)
    ensures var entries := Entries(r, fs, dir);
            && (forall i :: 0 <= i < |entries| ==> PlainFields(entries[i]))
            && ((forall i :: 0 <= i < |entries| ==> '\n' !in entries[i].name)
                <==> forall name :: dir + [name] in fs ==> '\n' !in name)
  {
    var entries := Entries(r, fs, dir);
    assert forall i :: 0 <= i < |entries| ==> entries[i].name == r.order(dir)[i];
    if forall i :: 0 <= i < |entries| ==> '\n' !in entries[i].name {
      forall name | dir + [name] in fs ensures '\n' !in name {
        var i :| 0 <= i < |r.order(dir)| && r.order(dir)[i] == name;
      }
    }
  }

  /** So a listing that has just been read, and holds no line end, shows every name of the
      directory and no other: what the laws on uploads and on Keep both ask of it. */
  lemma ListingShows(r: Reader, path: string, fs: Fs, events: seq<StreamEvent>)
    requires PathOk(path) && IsDir(fs, Resolve(path)) && ReadsAll(r, fs, Resolve(path)) && PlainOwners(r)
    requires RunFind(r, ListDir(path), fs).Done? ==>
               var done := RunFind(r, ListDir(path), fs);
               Concat(Chunks(events, false)) == done.stdout && FirstClose(events) == Some(Some(done.status))
    requires forall i :: 0 <= i < |Chunks(events, false)| ==> Utf8.BeginsWhole(Chunks(events, false)[i])
    requires forall name :: Resolve(path) + [name] in fs ==> '\n' !in name
    ensures ResultOf(Utf8.Decode, events).Some?
    ensures ParseListDir(ResultOf(Utf8.Decode, events).value.stdout).Some?
    ensures var names := NamesOf(ParseListDir(ResultOf(Utf8.Decode, events).value.stdout).value);
            && (forall name :: name in names <==> Resolve(path) + [name] in fs)
            && FilesLaws.Shows(fs, path, set name | name in names)
  {
    ListingEndToEnd(r, path, fs, events);
    NamesInOrder(r, fs, Resolve(path));
  }

  /** And every entry says what is there: a directory or a file, the size of the file, and what the
      host knows of it. */
  lemma ListingTells(r: Reader, path: string, fs: Fs, events: seq<StreamEvent>, e: FileEntry)
    requires PathOk(path) && IsDir(fs, Resolve(path)) && ReadsAll(r, fs, Resolve(path)) && PlainOwners(r)
    requires RunFind(r, ListDir(path), fs).Done? ==>
               var done := RunFind(r, ListDir(path), fs);
               Concat(Chunks(events, false)) == done.stdout && FirstClose(events) == Some(Some(done.status))
    requires forall i :: 0 <= i < |Chunks(events, false)| ==> Utf8.BeginsWhole(Chunks(events, false)[i])
    requires forall name :: Resolve(path) + [name] in fs ==> '\n' !in name
    requires ResultOf(Utf8.Decode, events).Some? ==>
               var parsed := ParseListDir(ResultOf(Utf8.Decode, events).value.stdout);
               parsed.Some? ==> e in parsed.value
    ensures var p := Resolve(path) + [e.name];
            && p in fs
            && (e.fileType == Directory <==> IsDir(fs, p)) && (e.fileType == Regular <==> IsFile(fs, p))
            && (IsFile(fs, p) ==> e.size == |fs[p].content|) && (IsDir(fs, p) ==> e.size == r.attributes(p).dirSize)
            && e.mode == r.attributes(p).mode && e.owner == r.attributes(p).owner && e.group == r.attributes(p).group
            && e.mtime == Some(RoundMs(r.attributes(p).ticks))
  {
    ListingEndToEnd(r, path, fs, events);
    var dir := Resolve(path);
    var i :| 0 <= i < |r.order(dir)| && ExpectedAll(Entries(r, fs, dir))[i] == e;
    EntryTells(r, fs, dir, i);
  }

  lemma EntryTells(r: Reader, fs: Fs, dir: Path, i: nat)
    requires AllThere(r, fs, dir) && i < |r.order(dir)| && PlainOwners(r)
    ensures var p, e := dir + [r.order(dir)[i]], ExpectedAll(Entries(r, fs, dir))[i];
            && p in fs && e.name == r.order(dir)[i]
            && (e.fileType == Directory <==> IsDir(fs, p)) && (e.fileType == Regular <==> IsFile(fs, p))
            && (IsFile(fs, p) ==> e.size == |fs[p].content|) && (IsDir(fs, p) ==> e.size == r.attributes(p).dirSize)
            && e.mode == r.attributes(p).mode && e.owner == r.attributes(p).owner && e.group == r.attributes(p).group
            && e.mtime == Some(RoundMs(r.attributes(p).ticks))
  {
    var entry := EntryOf(r, fs, dir + [r.order(dir)[i]]);
    assert Entries(r, fs, dir)[i] == entry;
    TypesRead(entry);
    LineRoundTrip(entry);
  }
}
