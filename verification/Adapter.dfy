/** The Debian adapter's file commands and the sudo wrapper, and what their texts mean. */
module Adapter {
  import opened Text
  import opened Base64
  import opened FileSystem
  import opened ShellLexer
  import opened Shell

  // ---------------------------------------------------------------- command texts

  /** The text the adapter sends for an operation. */
  function Command(op: Op): string {
    match op
    case MakeDir(p) => "mkdir -p " + Quote(p)
    case CreateFile(p) => "touch " + Quote(p)
    case MovePath(a, b) => "mv -n " + Quote(a) + " " + Quote(b)
    case CopyPath(a, b) => "cp -a -n " + Quote(a) + " " + Quote(b)
    case RemovePath(p) => "rm -rf " + Quote(p)
    case WriteFile(p, contents) => "printf %s " + Quote(Encode(contents)) + " | base64 -d > " + Quote(p)
  }

  /** The text of `readFile`. */
  function ReadCommand(path: string): string { "base64 -w0 " + Quote(path) }

  /** How `readFile` turns the command's output into bytes. */
  function ReadBytes(stdout: string): seq<byte> { NodeDecode(Trim(stdout)) }

  /** The text that `withElevation` sends in place of `command`. */
  function Elevated(command: string): string { "sudo -S -p '' sh -c " + Quote(command) }

  /** Paths the model covers: absolute, without NUL. */
  predicate PathOk(p: string) { Absolute(p) && NUL !in p }

  predicate PathsOk(op: Op) {
    match op
    case MovePath(a, b) => PathOk(a) && PathOk(b)
    case CopyPath(a, b) => PathOk(a) && PathOk(b)
    case _ => PathOk(op.path)
  }

  // ---------------------------------------------------------------- texts as pieces

  function Pieces(op: Op): seq<Piece> {
    match op
    case MakeDir(p) => [Plain("mkdir"), Plain("-p"), Arg(p)]
    case CreateFile(p) => [Plain("touch"), Arg(p)]
    case MovePath(a, b) => [Plain("mv"), Plain("-n"), Arg(a), Arg(b)]
    case CopyPath(a, b) => [Plain("cp"), Plain("-a"), Plain("-n"), Arg(a), Arg(b)]
    case RemovePath(p) => [Plain("rm"), Plain("-rf"), Arg(p)]
    case WriteFile(p, contents) =>
      [Plain("printf"), Plain("%s"), Arg(Encode(contents)), Bar, Plain("base64"), Plain("-d"), Great, Arg(p)]
  }

  lemma RenderCons(piece: Piece, rest: seq<Piece>)
    requires rest != []
    ensures Render([piece] + rest) == RenderPiece(piece) + " " + Render(rest)
  {
    assert ([piece] + rest)[1..] == rest;
  }

  lemma RenderPair(a: Piece, b: Piece)
    ensures Render([a, b]) == RenderPiece(a) + " " + RenderPiece(b)
  {
    RenderCons(a, [b]);
    assert [a] + [b] == [a, b];
  }

  lemma RenderThree(a: Piece, b: Piece, c: Piece)
    ensures Render([a, b, c]) == RenderPiece(a) + " " + (RenderPiece(b) + " " + RenderPiece(c))
  {
    RenderPair(b, c);
    RenderCons(a, [b, c]);
    assert [a] + [b, c] == [a, b, c];
  }

  lemma RenderFour(a: Piece, b: Piece, c: Piece, d: Piece)
    ensures Render([a, b, c, d]) ==
            RenderPiece(a) + " " + (RenderPiece(b) + " " + (RenderPiece(c) + " " + RenderPiece(d)))
  {
    RenderThree(b, c, d);
    RenderCons(a, [b, c, d]);
    assert [a] + [b, c, d] == [a, b, c, d];
  }

  /** Moves a word of a rendering into the literal text before an argument. */
  lemma Spaced(w: string, text: string, rest: string)
    ensures w + " " + (text + rest) == (w + " " + text) + rest
  {}

  lemma OneOption(name: string, option: string, text: string, p: string)
    requires text == name + " " + (option + " ")
    ensures Render([Plain(name), Plain(option), Arg(p)]) == text + Quote(p)
  {
    RenderThree(Plain(name), Plain(option), Arg(p));
    Spaced(name, option + " ", Quote(p));
  }

  lemma TwoArguments(name: string, option: string, text: string, a: string, b: string)
    requires text == name + " " + (option + " ")
    ensures Render([Plain(name), Plain(option), Arg(a), Arg(b)]) == text + (Quote(a) + " " + Quote(b))
  {
    RenderFour(Plain(name), Plain(option), Arg(a), Arg(b));
    Spaced(name, option + " ", Quote(a) + " " + Quote(b));
    Spaced(option, "", Quote(a) + " " + Quote(b));
  }

  lemma CopyRenders(a: string, b: string)
    ensures Command(CopyPath(a, b)) == Render(Pieces(CopyPath(a, b)))
  {
    var operands := Quote(a) + " " + Quote(b);
    TwoArguments("-a", "-n", "-a -n ", a, b);
    var rest := [Plain("-a"), Plain("-n"), Arg(a), Arg(b)];
    RenderCons(Plain("cp"), rest);
    assert [Plain("cp")] + rest == Pieces(CopyPath(a, b));
    Spaced("cp", "-a -n ", operands);
    assert "cp" + " " + "-a -n " == "cp -a -n ";
    Assoc("cp -a -n ", Quote(a), " ", Quote(b));
  }

  lemma Assoc(a: string, b: string, c: string, d: string)
    ensures a + b + c + d == a + (b + c + d)
  {}

  /** From the pipe on, the text of a write. */
  lemma WriteTailRenders(p: string)
    ensures Render([Bar, Plain("base64"), Plain("-d"), Great, Arg(p)]) == "| base64 -d > " + Quote(p)
  {
    var tail := [Plain("base64"), Plain("-d"), Great, Arg(p)];
    RenderFour(Plain("base64"), Plain("-d"), Great, Arg(p));
    Spaced("-d", "> ", Quote(p));
    assert "-d" + " " + "> " == "-d > ";
    Spaced("base64", "-d > ", Quote(p));
    assert "base64" + " " + "-d > " == "base64 -d > ";
    RenderCons(Bar, tail);
    Spaced("|", "base64 -d > ", Quote(p));
    assert "|" + " " + "base64 -d > " == "| base64 -d > ";
    assert [Bar] + tail == [Bar, Plain("base64"), Plain("-d"), Great, Arg(p)];
  }

  lemma PrintfRenders(rest: seq<Piece>)
    requires rest != []
    ensures Render([Plain("printf"), Plain("%s")] + rest) == "printf %s " + Render(rest)
  {
    var text := Render(rest);
    assert Render([Plain("%s")] + rest) == "%s " + text by {
      RenderCons(Plain("%s"), rest);
      assert "%s" + " " == "%s ";
    }
    assert Render([Plain("printf")] + ([Plain("%s")] + rest)) == "printf" + " " + ("%s " + text) by {
      RenderCons(Plain("printf"), [Plain("%s")] + rest);
    }
    assert "printf" + " " + ("%s " + text) == "printf %s " + text by {
      Spaced("printf", "%s ", text);
      assert "printf" + " " + "%s " == "printf %s ";
    }
    assert [Plain("printf")] + ([Plain("%s")] + rest) == [Plain("printf"), Plain("%s")] + rest;
  }

  lemma WriteHeadRenders(value: string, tail: seq<Piece>)
    requires tail != []
    ensures Render([Plain("printf"), Plain("%s"), Arg(value)] + tail) == "printf %s " + (Quote(value) + " " + Render(tail))
  {
    RenderCons(Arg(value), tail);
    PrintfRenders([Arg(value)] + tail);
    assert [Plain("printf"), Plain("%s")] + ([Arg(value)] + tail) == [Plain("printf"), Plain("%s"), Arg(value)] + tail;
  }

  lemma WriteRenders(p: string, contents: seq<byte>)
    ensures Command(WriteFile(p, contents)) == Render(Pieces(WriteFile(p, contents)))
  {
    var b64 := Quote(Encode(contents));
    var tail := [Bar, Plain("base64"), Plain("-d"), Great, Arg(p)];
    WriteTailRenders(p);
    WriteHeadRenders(Encode(contents), tail);
    assert [Plain("printf"), Plain("%s"), Arg(Encode(contents))] + tail == Pieces(WriteFile(p, contents));
    Spaced(b64, "| base64 -d > ", Quote(p));
    assert b64 + " " + "| base64 -d > " == b64 + " | base64 -d > ";
    Assoc("printf %s ", b64, " | base64 -d > ", Quote(p));
  }

  /** The command texts are renderings of their pieces. */
  lemma CommandRenders(op: Op)
    ensures Command(op) == Render(Pieces(op))
  {
    match op
    case MakeDir(p) => OneOption("mkdir", "-p", "mkdir -p ", p);
    case CreateFile(p) => RenderPair(Plain("touch"), Arg(p)); Spaced("touch", "", Quote(p));
    case MovePath(a, b) =>
      TwoArguments("mv", "-n", "mv -n ", a, b);
      Assoc("mv -n ", Quote(a), " ", Quote(b));
    case CopyPath(a, b) => CopyRenders(a, b);
    case RemovePath(p) => OneOption("rm", "-rf", "rm -rf ", p);
    case WriteFile(p, contents) => WriteRenders(p, contents);
  }

  // ---------------------------------------------------------------- texts as pipelines

  lemma {:induction false} ParseWords(words: seq<string>, rest: seq<Token>, current: Stage)
    ensures Parse(WordTokens(words) + rest, current) == Parse(rest, current.(argv := current.argv + words))
    decreases |words|
  {
    if words == [] {
      assert WordTokens(words) + rest == rest && current.argv + words == current.argv;
    } else {
      var tokens := WordTokens(words) + rest;
      var next := current.(argv := current.argv + [words[0]]);
      assert tokens[0] == Word(words[0]) && tokens[1..] == WordTokens(words[1..]) + rest;
      ParseWords(words[1..], rest, next);
      assert next.argv + words[1..] == current.argv + words;
    }
  }

  function WordTokens(words: seq<string>): seq<Token> {
    seq(|words|, i requires 0 <= i < |words| => Word(words[i]))
  }

  /** A rendering of plain words and arguments is one command with exactly those words. */
  lemma WordsPipeline(pieces: seq<Piece>, argv: seq<string>)
    requires argv != [] && |pieces| == |argv|
    requires forall i :: 0 <= i < |pieces| ==> Renders(pieces[i]) && TokenOf(pieces[i]) == Word(argv[i])
    ensures Pipeline(Render(pieces)) == Some([Stage(argv, None)])
  {
    LexRender(pieces);
    assert TokensOf(pieces) == WordTokens(argv) + [];
    ParseWords(argv, [], NO_STAGE);
    assert NO_STAGE.argv + argv == argv;
  }

  /** The words of the single command an operation other than a write becomes. */
  function Argv(op: Op): seq<string>
    requires !op.WriteFile?
  {
    match op
    case MakeDir(p) => ["mkdir", "-p", p]
    case CreateFile(p) => ["touch", p]
    case MovePath(a, b) => ["mv", "-n", a, b]
    case CopyPath(a, b) => ["cp", "-a", "-n", a, b]
    case RemovePath(p) => ["rm", "-rf", p]
  }

  lemma UtilityWords()
    ensures PlainWord("mkdir") && PlainWord("-p") && PlainWord("touch")
    ensures PlainWord("mv") && PlainWord("-n") && PlainWord("cp") && PlainWord("-a")
    ensures PlainWord("rm") && PlainWord("-rf")
    ensures PlainWord("printf") && PlainWord("%s") && PlainWord("base64") && PlainWord("-d") && PlainWord("-w0")
  {}

  /** Every path, whatever characters it holds, arrives as exactly one word. */
  lemma CommandWords(op: Op)
    requires !op.WriteFile? && PathsOk(op)
    ensures Pipeline(Command(op)) == Some([Stage(Argv(op), None)])
  {
    CommandRenders(op);
    UtilityWords();
    WordsPipeline(Pieces(op), Argv(op));
  }

  lemma WriteTokens(p: string, contents: seq<byte>)
    requires NUL !in p
    ensures Lex(Command(WriteFile(p, contents)))
         == Some(WordTokens(["printf", "%s", Encode(contents)]) + ([Pipe] + (WordTokens(["base64", "-d"]) + [Into, Word(p)])))
  {
    var pieces, b64 := Pieces(WriteFile(p, contents)), Encode(contents);
    CommandRenders(WriteFile(p, contents));
    assert NUL !in b64 by {
      EncodePlain(contents);
      assert forall c :: c in b64 ==> c != NUL;
    }
    assert Lex(Render(pieces)) == Some(TokensOf(pieces)) by {
      UtilityWords();
      LexRender(pieces);
    }
    assert TokensOf(pieces) == WordTokens(["printf", "%s", b64]) + ([Pipe] + (WordTokens(["base64", "-d"]) + [Into, Word(p)])) by {
      var tokens := TokensOf(pieces);
      assert tokens[..3] == WordTokens(["printf", "%s", b64]);
      assert tokens[3..] == [Pipe] + (WordTokens(["base64", "-d"]) + [Into, Word(p)]);
      assert tokens == tokens[..3] + tokens[3..];
    }
  }

  lemma WritePipeline(p: string, contents: seq<byte>)
    requires NUL !in p
    ensures Pipeline(Command(WriteFile(p, contents)))
         == Some([Stage(["printf", "%s", Encode(contents)], None), Stage(["base64", "-d"], Some(p))])
  {
    var head := ["printf", "%s", Encode(contents)];
    var tail := WordTokens(["base64", "-d"]) + [Into, Word(p)];
    WriteTokens(p, contents);
    var tokens := WordTokens(head) + ([Pipe] + tail);
    assert Parse(tokens, NO_STAGE) == Parse([Pipe] + tail, Stage(head, None)) by {
      ParseWords(head, [Pipe] + tail, NO_STAGE);
      assert NO_STAGE.argv + head == head;
    }
    ParseTail(p);
    ParsePipe(tail, Stage(head, None));
    assert [Stage(head, None)] + [Stage(["base64", "-d"], Some(p))] == [Stage(head, None), Stage(["base64", "-d"], Some(p))];
  }

  lemma {:induction false} ParsePipe(tail: seq<Token>, current: Stage)
    requires current.argv != [] && Parse(tail, NO_STAGE).Some?
    ensures Parse([Pipe] + tail, current) == Some([current] + Parse(tail, NO_STAGE).value)
  {
    assert ([Pipe] + tail)[1..] == tail;
  }

  lemma ParseTail(p: string)
    ensures Parse(WordTokens(["base64", "-d"]) + [Into, Word(p)], NO_STAGE) == Some([Stage(["base64", "-d"], Some(p))])
  {
    ParseWords(["base64", "-d"], [Into, Word(p)], NO_STAGE);
    assert NO_STAGE.argv + ["base64", "-d"] == ["base64", "-d"];
    assert [Into, Word(p)][2..] == [];
  }
}
