/** What a command line does on the host: one pipeline of the utilities that the adapter
    uses, an output redirection at its end, `sh -c`, and `sudo -S`. Anything else is
    Unsupported, which is never a success. */
module Shell {
  import opened Text
  import opened Base64
  import opened FileSystem
  import opened ShellLexer

  /** One command of a pipeline: its words and the target of its `>`, if any. */
  datatype Stage = Stage(argv: seq<string>, into: Option<string>)

  /** The host's properties that commands depend on: the status its `mv` and `cp` report
      for a refused overwrite, and how its `sudo` authenticates. */
  datatype Host = Host(skipped: nat, secret: seq<byte>, asks: bool, tries: nat)

  datatype Outcome = Unsupported | Done(fs: Fs, stdout: seq<byte>, status: nat)

  // ---------------------------------------------------------------- parsing

  const NO_STAGE := Stage([], None)

  function Parse(tokens: seq<Token>, current: Stage): Option<seq<Stage>>
    decreases |tokens|
  {
    if tokens == [] then
      if current.argv == [] then None else Some([current])
    else match tokens[0]
      case Word(w) => Parse(tokens[1..], current.(argv := current.argv + [w]))
      case Into =>
        if |tokens| > 1 && tokens[1].Word? && current.into.None?
        then Parse(tokens[2..], current.(into := Some(tokens[1].text)))
        else None
      case Pipe =>
        if current.argv == [] then None
        else match Parse(tokens[1..], NO_STAGE)
          case Some(rest) => Some([current] + rest)
          case None => None
  }

  function StagesWeight(stages: seq<Stage>): nat {
    if stages == [] then 0 else Weight(stages[0].argv) + StagesWeight(stages[1..])
  }

  lemma {:induction false} WeightSnoc(words: seq<string>, w: string)
    ensures Weight(words + [w]) == Weight(words) + |w| + 1
  {
    if words != [] {
      assert (words + [w])[1..] == words[1..] + [w];
      WeightSnoc(words[1..], w);
    }
  }

  lemma {:induction false} ParseWeight(tokens: seq<Token>, current: Stage)
    requires Parse(tokens, current).Some?
    ensures |Parse(tokens, current).value| > 0
    ensures StagesWeight(Parse(tokens, current).value) <= Weight(current.argv) + TokensWeight(tokens)
    decreases |tokens|
  {
    if tokens != [] {
      match tokens[0]
      case Word(w) =>
        WeightSnoc(current.argv, w);
        ParseWeight(tokens[1..], current.(argv := current.argv + [w]));
      case Into =>
        ParseWeight(tokens[2..], current.(into := Some(tokens[1].text)));
        assert tokens[1..][1..] == tokens[2..];
      case Pipe =>
        ParseWeight(tokens[1..], NO_STAGE);
        var rest := Parse(tokens[1..], NO_STAGE).value;
        assert ([current] + rest)[1..] == rest;
    }
  }

  /** The pipeline a command line stands for. */
  function Pipeline(text: string): (stages: Option<seq<Stage>>)
    ensures stages.Some? ==> |stages.value| > 0 && StagesWeight(stages.value) <= |text| + 1
  {
    match Lex(text)
    case None => None
    case Some(tokens) =>
      if Parse(tokens, NO_STAGE).None? then None
      else
        LexWeight(text);
        ParseWeight(tokens, NO_STAGE);
        Parse(tokens, NO_STAGE)
  }

  // ---------------------------------------------------------------- streams

  const NEWLINE: byte := 10

  predicate IsAscii(s: string) { forall c :: c in s ==> c as int < 128 }

  function ByteOf(c: char): byte
    requires c as int < 128
  {
    c as int
  }

  function BytesOf(s: string): seq<byte>
    requires IsAscii(s)
  {
    seq(|s|, i requires 0 <= i < |s| => assert s[i] in s; ByteOf(s[i]))
  }

  function CharsOf(b: seq<byte>): string {
    seq(|b|, i requires 0 <= i < |b| => b[i] as char)
  }

  lemma CharsOfBytes(s: string)
    requires IsAscii(s)
    ensures CharsOf(BytesOf(s)) == s
  {}

  // ---------------------------------------------------------------- utilities

  /** Utilities that only turn their input into output. */
  function Filter(argv: seq<string>, stdin: seq<byte>): Option<seq<byte>> {
    if |argv| == 3 && argv[..2] == ["printf", "%s"] then
      if IsAscii(argv[2]) then Some(BytesOf(argv[2])) else None
    else if argv == ["base64", "-d"] then HostDecode(CharsOf(stdin))
    else None
  }

  function Applied(effect: Effect): Outcome { Done(effect.fs, [], effect.status) }

  /** Utilities with file operands. Operands that are not absolute are not modelled: they
      depend on the working directory, or are taken for options. */
  function Utility(h: Host, argv: seq<string>, fs: Fs): Outcome {
    if |argv| == 3 && argv[..2] == ["base64", "-w0"] && Absolute(argv[2]) then
      if IsFile(fs, Resolve(argv[2]))
      then Done(fs, EncodePlain(fs[Resolve(argv[2])].content); BytesOf(Encode(fs[Resolve(argv[2])].content)), 0)
      else Done(fs, [], 1)
    else if |argv| == 3 && argv[..2] == ["mkdir", "-p"] && Absolute(argv[2]) then
      Applied(Mkdir(fs, Resolve(argv[2])))
    else if |argv| == 2 && argv[0] == "touch" && Absolute(argv[1]) then
      Applied(Touch(fs, Resolve(argv[1])))
    else if |argv| == 4 && argv[..2] == ["mv", "-n"] && Absolute(argv[2]) && Absolute(argv[3]) then
      Applied(Mv(fs, Resolve(argv[2]), Resolve(argv[3]), h.skipped))
    else if |argv| == 5 && argv[..3] == ["cp", "-a", "-n"] && Absolute(argv[3]) && Absolute(argv[4]) then
      Applied(Cp(fs, Resolve(argv[3]), Resolve(argv[4]), h.skipped))
    else if |argv| == 3 && argv[..2] == ["rm", "-rf"] && Absolute(argv[2]) then
      Applied(Rm(fs, Resolve(argv[2])))
    else Unsupported
  }

  /** The bytes after the first line, or None when the input has no line. */
  function AfterLine(stdin: seq<byte>): Option<(seq<byte>, seq<byte>)> {
    if stdin == [] then None
    else if stdin[0] == NEWLINE then Some(([], stdin[1..]))
    else match AfterLine(stdin[1..])
      case Some((line, rest)) => Some(([stdin[0]] + line, rest))
      case None => None
  }

  /** `sudo -S` reads password lines from its input until one is right; what is left of the
      input goes to the command. A host that does not ask reads nothing. */
  function Authenticate(h: Host, stdin: seq<byte>, tries: nat): Option<seq<byte>>
    decreases tries
  {
    if !h.asks then Some(stdin)
    else if tries == 0 then None
    else match AfterLine(stdin)
      case Some((line, rest)) => if line == h.secret then Some(rest) else Authenticate(h, rest, tries - 1)
      case None => None
  }

  // ---------------------------------------------------------------- running

  /** What running the command line `text` does. */
  function Run(h: Host, text: string, stdin: seq<byte>, fs: Fs): Outcome
    decreases |text| + 1, 3, 0
  {
    match Pipeline(text)
    case None => Unsupported
    case Some(stages) => RunStages(h, stages, stdin, fs)
  }

  /** A pipeline. Its commands run at once, so the model covers those pipelines in which
      every command but the last is a filter: there the order does not matter. */
  function RunStages(h: Host, stages: seq<Stage>, stdin: seq<byte>, fs: Fs): Outcome
    requires |stages| > 0
    decreases StagesWeight(stages), 2, |stages|
  {
    if |stages| == 1 then RunStage(h, stages[0], stdin, fs)
    else if stages[0].into.Some? then Unsupported
    else match Filter(stages[0].argv, stdin)
      case Some(out) => RunStages(h, stages[1..], out, fs)
      case None => Unsupported
  }

  function RunStage(h: Host, stage: Stage, stdin: seq<byte>, fs: Fs): Outcome
    decreases Weight(stage.argv), 1, 0
  {
    match stage.into
    case None => RunArgv(h, stage.argv, stdin, fs)
    case Some(target) =>
      match Filter(stage.argv, stdin)
      case Some(out) =>
        if Absolute(target) then Applied(Redirect(fs, Resolve(target), out)) else Unsupported
      case None => Unsupported
  }

  function RunArgv(h: Host, argv: seq<string>, stdin: seq<byte>, fs: Fs): Outcome
    decreases Weight(argv), 0, 0
  {
    if |argv| == 3 && argv[..2] == ["sh", "-c"] then
      WeightDrop(argv, 2);
      assert argv[2..] == [argv[2]];
      Run(h, argv[2], stdin, fs)
    else if |argv| > 4 && argv[..3] == ["sudo", "-S", "-p"] then
      match Authenticate(h, stdin, h.tries)
      case Some(rest) =>
        WeightDrop(argv, 4);
        RunArgv(h, argv[4..], rest, fs)
      case None => Done(fs, [], 1)
    else
      match Filter(argv, stdin)
      case Some(out) => Done(fs, out, 0)
      case None => Utility(h, argv, fs)
  }

  lemma {:induction false} WeightDrop(words: seq<string>, n: nat)
    requires n <= |words|
    ensures Weight(words) >= Weight(words[n..]) + n
    ensures n >= 2 && |words[0]| == 2 ==> Weight(words) >= Weight(words[n..]) + n + 2
  {
    if n > 0 {
      WeightDrop(words[1..], n - 1);
      assert words[1..][n - 1..] == words[n..];
    }
  }
}
