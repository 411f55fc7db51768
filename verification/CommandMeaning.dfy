/** What the generated command lines mean on the host: the text is the operation. */
module CommandMeaning {
  import opened Text
  import opened Base64
  import opened FileSystem
  import opened ShellLexer
  import opened Shell
  import opened SshExec
  import opened Adapter

  // ---------------------------------------------------------------- file operations

  /** Running the text of an operation performs the operation: for every path, whatever
      characters it holds, every content, and whatever waits on standard input. */
  lemma CommandMeans(h: Host, op: Op, stdin: seq<byte>, fs: Fs)
    requires PathsOk(op)
    ensures Run(h, Command(op), stdin, fs) == Applied(Perform(op, fs, h.skipped))
  {
    if op.WriteFile? {
      WriteMeans(h, op.path, op.contents, stdin, fs);
    } else {
      CommandWords(op);
      RunSingle(h, Command(op), Argv(op), stdin, fs);
      ArgvMeans(h, op, stdin, fs);
    }
  }

  lemma RunSingle(h: Host, text: string, argv: seq<string>, stdin: seq<byte>, fs: Fs)
    requires Pipeline(text) == Some([Stage(argv, None)])
    ensures Run(h, text, stdin, fs) == RunArgv(h, argv, stdin, fs)
  {
    var stages := [Stage(argv, None)];
    assert Run(h, text, stdin, fs) == RunStages(h, stages, stdin, fs);
    assert RunStages(h, stages, stdin, fs) == RunStage(h, stages[0], stdin, fs);
  }

  lemma ArgvMeans(h: Host, op: Op, stdin: seq<byte>, fs: Fs)
    requires PathsOk(op) && !op.WriteFile?
    ensures RunArgv(h, Argv(op), stdin, fs) == Applied(Perform(op, fs, h.skipped))
  {
    var argv := Argv(op);
    assert argv[0] != "sh" && argv[0] != "sudo" && argv[0] != "printf" && argv[0] != "base64";
    assert |argv| >= 2 ==> argv[..2] == [argv[0], argv[1]];
    assert |argv| >= 3 ==> argv[..3] == [argv[0], argv[1], argv[2]];
    assert Filter(argv, stdin).None?;
  }

  lemma WriteMeans(h: Host, p: string, contents: seq<byte>, stdin: seq<byte>, fs: Fs)
    requires PathOk(p)
    ensures Run(h, Command(WriteFile(p, contents)), stdin, fs) == Applied(Redirect(fs, Resolve(p), contents))
  {
    var b64 := Encode(contents);
    WritePipeline(p, contents);
    EncodePlain(contents);
    var first, last := Stage(["printf", "%s", b64], None), Stage(["base64", "-d"], Some(p));
    assert first.argv[..2] == ["printf", "%s"];
    assert Filter(first.argv, stdin) == Some(BytesOf(b64));
    assert Filter(last.argv, BytesOf(b64)) == Some(contents) by {
      CharsOfBytes(b64);
      HostRoundTrip(contents);
    }
    var stages, rest := [first, last], [last];
    assert stages[1..] == rest;
    assert Run(h, Command(WriteFile(p, contents)), stdin, fs) == RunStages(h, stages, stdin, fs);
    assert RunStages(h, stages, stdin, fs) == RunStages(h, rest, BytesOf(b64), fs);
    assert RunStages(h, rest, BytesOf(b64), fs) == RunStage(h, last, BytesOf(b64), fs);
    assert RunStage(h, last, BytesOf(b64), fs) == Applied(Redirect(fs, Resolve(p), contents));
  }

  /** No operation's text changes a path other than those its arguments name. */
  lemma CommandFrame(h: Host, op: Op, stdin: seq<byte>, fs: Fs, q: Path)
    requires PathsOk(op) && ValidFs(fs) && !Names(op, fs, q)
    ensures Run(h, Command(op), stdin, fs).Done? && SameAt(fs, Run(h, Command(op), stdin, fs).fs, q)
  {
    CommandMeans(h, op, stdin, fs);
    PerformFrame(op, fs, h.skipped, q);
  }

  lemma ReadMeans(h: Host, p: string, stdin: seq<byte>, fs: Fs)
    requires PathOk(p)
    ensures Run(h, ReadCommand(p), stdin, fs)
         == if IsFile(fs, Resolve(p))
            then Done(fs, EncodePlain(fs[Resolve(p)].content); BytesOf(Encode(fs[Resolve(p)].content)), 0)
            else Done(fs, [], 1)
  {
    var argv := ["base64", "-w0", p];
    OneOption("base64", "-w0", "base64 -w0 ", p);
    UtilityWords();
    WordsPipeline([Plain("base64"), Plain("-w0"), Arg(p)], argv);
    RunSingle(h, ReadCommand(p), argv, stdin, fs);
    assert argv[..2] == ["base64", "-w0"];
    assert argv != ["base64", "-d"];
  }

  // ---------------------------------------------------------------- file round trip

  /** Writing any bytes to any path that can hold a file and reading the path back gives the
      same bytes, through quoting, tokenising, the pipeline, the redirection, both base64
      codecs and trimming, however the output is cut into chunks on its way; nothing but
      that file changes, and reading changes nothing. */
  lemma FileRoundTrip(h: Host, p: string, b: seq<byte>, fs: Fs, decode: Decoder, events: seq<StreamEvent>)
    requires PathOk(p) && Writable(fs, Resolve(p)) && DecodesAscii(decode)
    ensures var written := Run(h, Command(WriteFile(p, b)), [], fs);
            && written == Done(fs[Resolve(p) := File(b)], [], 0)
            && var read := Run(h, ReadCommand(p), [], written.fs);
            && read.Done? && read.fs == written.fs && read.status == 0
            && (Concat(Chunks(events, false)) == read.stdout && FirstClose(events) == Some(Some(read.status)) ==>
                  && ResultOf(decode, events).Some?
                  && ResultOf(decode, events).value.exitCode == Some(0)
                  && ReadBytes(ResultOf(decode, events).value.stdout) == b)
  {
    CommandMeans(h, WriteFile(p, b), [], fs);
    ReadMeans(h, p, [], fs[Resolve(p) := File(b)]);
    ReadBack(b, decode, events);
  }

  /** The encoded content, streamed in any chunks, comes out as the content. */
  lemma ReadBack(b: seq<byte>, decode: Decoder, events: seq<StreamEvent>)
    requires DecodesAscii(decode)
    ensures IsAscii(Encode(b))
    ensures Concat(Chunks(events, false)) == BytesOf(Encode(b)) ==>
              ReadBytes(Decoded(decode, Chunks(events, false))) == b
  {
    EncodePlain(b);
    if Concat(Chunks(events, false)) == BytesOf(Encode(b)) {
      DecodedAscii(decode, Chunks(events, false));
      CharsOfBytes(Encode(b));
      NodeRoundTrip(b);
    }
  }

  /** A write that fails has not changed anything. */
  lemma WriteRefused(h: Host, p: string, b: seq<byte>, fs: Fs)
    requires PathOk(p) && !Writable(fs, Resolve(p))
    ensures var written := Run(h, Command(WriteFile(p, b)), [], fs);
            written.Done? && written.status != 0 && written.fs == fs
  {
    CommandMeans(h, WriteFile(p, b), [], fs);
  }

  // ---------------------------------------------------------------- elevation

  /** A plain word put before a rendering. */
  lemma Prefixed(word: string, rest: seq<Piece>, text: string, q: string, joined: string)
    requires rest != [] && Render(rest) == text + q && joined == word + " " + text
    ensures Render([Plain(word)] + rest) == joined + q
  {
    RenderCons(Plain(word), rest);
    Spaced(word, text, q);
  }

  lemma PromptRenders(command: string)
    ensures Render([Arg(""), Plain("sh"), Plain("-c"), Arg(command)]) == "'' sh -c " + Quote(command)
  {
    var tail := [Plain("sh"), Plain("-c"), Arg(command)];
    OneOption("sh", "-c", "sh -c ", command);
    assert Quote("") == "''";
    RenderCons(Arg(""), tail);
    Spaced("''", "sh -c ", Quote(command));
    assert "''" + " " + "sh -c " == "'' sh -c ";
    assert [Arg("")] + tail == [Arg(""), Plain("sh"), Plain("-c"), Arg(command)];
  }

  function PromptPieces(command: string): seq<Piece> { [Arg(""), Plain("sh"), Plain("-c"), Arg(command)] }

  lemma PromptOptionRenders(command: string)
    ensures Render([Plain("-p")] + PromptPieces(command)) == "-p '' sh -c " + Quote(command)
  {
    PromptRenders(command);
    Prefixed("-p", PromptPieces(command), "'' sh -c ", Quote(command), "-p '' sh -c ");
  }

  lemma OptionsRender(command: string)
    ensures Render([Plain("-S")] + ([Plain("-p")] + PromptPieces(command))) == "-S -p '' sh -c " + Quote(command)
  {
    PromptOptionRenders(command);
    OptionsText();
    Prefixed("-S", [Plain("-p")] + PromptPieces(command), "-p '' sh -c ", Quote(command), "-S" + " " + "-p '' sh -c ");
  }

  lemma OptionsText()
    ensures "-S" + " " + "-p '' sh -c " == "-S -p '' sh -c "
  {
    assert "-S" + " " == "-S ";
  }

  lemma ElevatedRenders(command: string)
    ensures Elevated(command) == Render([Plain("sudo")] + ([Plain("-S")] + ([Plain("-p")] + PromptPieces(command))))
  {
    OptionsRender(command);
    Prefixed("sudo", [Plain("-S")] + ([Plain("-p")] + PromptPieces(command)),
             "-S -p '' sh -c ", Quote(command), "sudo -S -p '' sh -c ");
  }

  /** The wrapped text has seven words, the last of which is the whole command. */
  lemma ElevatedWords(command: string)
    requires NUL !in command
    ensures Pipeline(Elevated(command)) == Some([Stage(["sudo", "-S", "-p", "", "sh", "-c", command], None)])
  {
    ElevatedRenders(command);
    assert [Plain("sudo")] + ([Plain("-S")] + ([Plain("-p")] + PromptPieces(command)))
        == [Plain("sudo"), Plain("-S"), Plain("-p"), Arg(""), Plain("sh"), Plain("-c"), Arg(command)];
    assert PlainWord("sudo") && PlainWord("-S") && PlainWord("sh") && PlainWord("-c") && PlainWord("-p");
    WordsPipeline([Plain("sudo"), Plain("-S"), Plain("-p"), Arg(""), Plain("sh"), Plain("-c"), Arg(command)],
                  ["sudo", "-S", "-p", "", "sh", "-c", command]);
  }

  /** Elevation preserves meaning: for every command, also one outside the modelled shell, the
      wrapped text does what the command does once sudo has let it through, with the rest of
      the input; if sudo does not, nothing happens. */
  lemma ElevatedMeans(h: Host, command: string, stdin: seq<byte>, fs: Fs)
    requires NUL !in command
    ensures Authenticate(h, stdin, h.tries).Some? ==>
              Run(h, Elevated(command), stdin, fs) == Run(h, command, Authenticate(h, stdin, h.tries).value, fs)
    ensures Authenticate(h, stdin, h.tries).None? ==> Run(h, Elevated(command), stdin, fs) == Done(fs, [], 1)
  {
    var argv := ["sudo", "-S", "-p", "", "sh", "-c", command];
    ElevatedWords(command);
    RunSingle(h, Elevated(command), argv, stdin, fs);
    assert argv[..3] == ["sudo", "-S", "-p"] && argv[4..] == ["sh", "-c", command];
    match Authenticate(h, stdin, h.tries)
    case None =>
    case Some(rest) =>
      var shell := ["sh", "-c", command];
      assert shell[..2] == ["sh", "-c"];
      assert RunArgv(h, argv, stdin, fs) == RunArgv(h, shell, rest, fs);
      assert RunArgv(h, shell, rest, fs) == Run(h, command, rest, fs);
  }

  /** The line `withElevation` puts on standard input. */
  function PasswordLine(password: seq<byte>): seq<byte> { password + [NEWLINE] }

  lemma {:induction false} AfterPassword(password: seq<byte>, rest: seq<byte>)
    requires NEWLINE !in password
    ensures AfterLine(PasswordLine(password) + rest) == Some((password, rest))
  {
    var s := PasswordLine(password) + rest;
    if password == [] {
      assert s[1..] == rest;
    } else {
      assert s[0] == password[0] && s[1..] == PasswordLine(password[1..]) + rest;
      assert [password[0]] + password[1..] == password;
      AfterPassword(password[1..], rest);
    }
  }

  lemma Authenticates(h: Host, rest: seq<byte>)
    requires h.asks && h.tries > 0 && NEWLINE !in h.secret
    ensures Authenticate(h, PasswordLine(h.secret) + rest, h.tries) == Some(rest)
  {
    AfterPassword(h.secret, rest);
  }

  /** With the one line `withElevation` sends, an operation of the adapter takes effect exactly
      when the password is right or is not asked for, and then in full. */
  lemma ElevatedOperation(h: Host, op: Op, password: seq<byte>, fs: Fs)
    requires PathsOk(op) && NEWLINE !in password && h.tries > 0
    ensures Run(h, Elevated(Command(op)), PasswordLine(password), fs)
         == if !h.asks || password == h.secret then Applied(Perform(op, fs, h.skipped)) else Done(fs, [], 1)
  {
    CommandNulFree(op);
    ElevatedMeans(h, Command(op), PasswordLine(password), fs);
    assert PasswordLine(password) + [] == PasswordLine(password);
    AfterPassword(password, []);
    CommandMeans(h, op, [], fs);
    CommandMeans(h, op, PasswordLine(password), fs);
    assert Authenticate(h, [], h.tries - 1).None? || !h.asks;
  }

  lemma CommandNulFree(op: Op)
    requires PathsOk(op)
    ensures NUL !in Command(op)
  {
    if NUL in Command(op) {
      ScanStuck(START, Command(op));
      if op.WriteFile? { WritePipeline(op.path, op.contents); } else { CommandWords(op); }
      assert false;
    }
  }

  // ---------------------------------------------------------------- nested elevation

  function ElevatedTimes(command: string, depth: nat): string {
    if depth == 0 then command else Elevated(ElevatedTimes(command, depth - 1))
  }

  function Lines(line: seq<byte>, count: nat, rest: seq<byte>): seq<byte> {
    if count == 0 then rest else line + Lines(line, count - 1, rest)
  }

  lemma {:induction false} ElevatedTimesNulFree(command: string, depth: nat)
    requires NUL !in command
    ensures NUL !in ElevatedTimes(command, depth)
  {
    if depth > 0 {
      ElevatedTimesNulFree(command, depth - 1);
      var inner := ElevatedTimes(command, depth - 1);
      QuoteNulFree(inner);
      NulFreeConcat("sudo -S -p '' sh -c ", Quote(inner));
    }
  }

  /** Quoting layers do not interfere: wrapped any number of times, with one password line for
      each layer, a command still means what it meant. */
  lemma {:induction false} NestedElevation(h: Host, command: string, depth: nat, rest: seq<byte>, fs: Fs)
    requires NUL !in command && h.asks && h.tries > 0 && NEWLINE !in h.secret
    ensures Run(h, ElevatedTimes(command, depth), Lines(PasswordLine(h.secret), depth, rest), fs)
         == Run(h, command, rest, fs)
  {
    if depth > 0 {
      var line := PasswordLine(h.secret);
      ElevatedTimesNulFree(command, depth - 1);
      ElevatedMeans(h, ElevatedTimes(command, depth - 1), Lines(line, depth, rest), fs);
      Authenticates(h, Lines(line, depth - 1, rest));
      NestedElevation(h, command, depth - 1, rest, fs);
    }
  }

  /** But nested wrappers send one line only, the one of the wrapper around the outermost `sudo`,
      as each drops the input it is given (packages/core/src/privilege/elevation.ts:25). On a
      host that asks, one layer then works, and from two layers on nothing happens. */
  lemma {:induction false} NestedOneLine(h: Host, command: string, depth: nat, fs: Fs)
    requires NUL !in command && h.asks && h.tries > 0 && NEWLINE !in h.secret
    ensures depth == 1 ==> Run(h, ElevatedTimes(command, depth), PasswordLine(h.secret), fs) == Run(h, command, [], fs)
    ensures depth >= 2 ==> Run(h, ElevatedTimes(command, depth), PasswordLine(h.secret), fs) == Done(fs, [], 1)
  {
    if depth > 0 {
      ElevatedTimesNulFree(command, depth - 1);
      assert PasswordLine(h.secret) + [] == PasswordLine(h.secret);
      Authenticates(h, []);
      ElevatedMeans(h, ElevatedTimes(command, depth - 1), PasswordLine(h.secret), fs);
      if depth > 1 {
        ElevatedTimesNulFree(command, depth - 2);
        ElevatedMeans(h, ElevatedTimes(command, depth - 2), [], fs);
      }
    }
  }
}
