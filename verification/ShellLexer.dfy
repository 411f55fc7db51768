/** The part of the POSIX shell's token recognition that the generated commands use, as a
    character state machine: IEEE Std 1003.1-2017, Shell Command Language, sections 2.2.1
    (escape character), 2.2.2 (single-quotes) and 2.3 (token recognition). Unquoted text
    with a meaning outside this part (expansions, patterns, lists, comments) stops the
    machine: such a command has no tokens here rather than wrong ones. */
module ShellLexer {
  import opened Text

  datatype Token = Word(text: string) | Pipe | Into

  datatype Mode =
    | Blank     // between tokens
    | Operator  // just after | or >
    | InWord    // in a word, unquoted
    | Quoted    // in a word, between single quotes
    | Escaped   // in a word, just after an unquoted backslash
    | Stuck     // outside the modelled part

  /** `word` is the word read so far and `tokens` are the finished tokens. */
  datatype LexState = LexState(mode: Mode, word: string, tokens: seq<Token>)

  const START := LexState(Blank, "", [])

  const NUL: char := 0 as char

  /** Characters that stand for themselves everywhere outside quotes. */
  predicate IsPlain(c: char) {
    'a' <= c <= 'z' || 'A' <= c <= 'Z' || '0' <= c <= '9'
    || c == '-' || c == '_' || c == '%' || c == '/' || c == '.' || c == ',' || c == ':' || c == '@' || c == '+'
    || c as int >= 128
  }

  /** The word being read is finished, if there is one. */
  function Delimit(st: LexState): seq<Token> {
    if st.mode == InWord then st.tokens + [Word(st.word)] else st.tokens
  }

  /** `2>` and the like redirect a numbered descriptor. */
  predicate IsIoNumber(st: LexState) {
    st.mode == InWord && forall c :: c in st.word ==> IsDigit(c, 10)
  }

  function Step(st: LexState, c: char): LexState {
    if c == NUL then st.(mode := Stuck)
    else match st.mode
      case Stuck => st
      case Quoted => if c == '\'' then st.(mode := InWord) else st.(word := st.word + [c])
      case Escaped => if c == '\n' then st.(mode := Stuck) else st.(mode := InWord, word := st.word + [c])
      case _ =>
        if c == '\'' then st.(mode := Quoted)
        else if c == '\\' then st.(mode := Escaped)
        else if c == ' ' || c == '\t' then LexState(Blank, "", Delimit(st))
        else if c == '|' then
          if st.mode == Operator then st.(mode := Stuck) else LexState(Operator, "", Delimit(st) + [Pipe])
        else if c == '>' then
          if st.mode == Operator || IsIoNumber(st) then st.(mode := Stuck)
          else LexState(Operator, "", Delimit(st) + [Into])
        else if IsPlain(c) then st.(mode := InWord, word := st.word + [c])
        else st.(mode := Stuck)
  }

  function Scan(st: LexState, s: string): LexState
    decreases |s|
  {
    if s == "" then st else Scan(Step(st, s[0]), s[1..])
  }

  /** The tokens of a command line; None when it is unfinished or outside the model. */
  function Lex(s: string): Option<seq<Token>> {
    var st := Scan(START, s);
    if st.mode in {Quoted, Escaped, Stuck} then None else Some(Delimit(st))
  }

  lemma {:induction false} ScanAppend(st: LexState, a: string, b: string)
    ensures Scan(st, a + b) == Scan(Scan(st, a), b)
    decreases |a|
  {
    if a == "" {
      assert a + b == b;
    } else {
      assert (a + b)[1..] == a[1..] + b;
      ScanAppend(Step(st, a[0]), a[1..], b);
    }
  }

  // ---------------------------------------------------------------- quoting

  /** `arg.replace(/'/g, "'\\''")`. */
  function EscapeQuotes(arg: string): string {
    if arg == "" then ""
    else (if arg[0] == '\'' then "'\\''" else [arg[0]]) + EscapeQuotes(arg[1..])
  }

  /** `quote(arg)` of the adapters. */
  function Quote(arg: string): string { "'" + EscapeQuotes(arg) + "'" }

  lemma ScanOne(st: LexState, c: char)
    ensures Scan(st, [c]) == Step(st, c)
  {
    assert Scan(st, [c]) == Scan(Step(st, c), [c][1..]);
  }

  lemma ScanEscapedQuote(st: LexState)
    requires st.mode == Quoted
    ensures Scan(st, "'\\''") == st.(word := st.word + "'")
  {
    var a, b, c := "'", "\\", "'";
    assert "'\\''" == a + (b + (c + "'"));
    ScanAppend(st, a, b + (c + "'"));
    ScanOne(st, '\'');
    var st1 := Step(st, '\'');
    ScanAppend(st1, b, c + "'");
    ScanOne(st1, '\\');
    var st2 := Step(st1, '\\');
    ScanAppend(st2, c, "'");
    ScanOne(st2, '\'');
    ScanOne(Step(st2, '\''), '\'');
  }

  lemma {:induction false} ScanEscaped(st: LexState, arg: string)
    requires st.mode == Quoted && NUL !in arg
    ensures Scan(st, EscapeQuotes(arg)) == st.(word := st.word + arg)
    decreases |arg|
  {
    if arg == "" {
      assert st.word + arg == st.word;
    } else {
      var head := if arg[0] == '\'' then "'\\''" else [arg[0]];
      assert arg[0] in arg;
      ScanAppend(st, head, EscapeQuotes(arg[1..]));
      if arg[0] == '\'' { ScanEscapedQuote(st); } else { ScanOne(st, arg[0]); }
      ScanEscaped(st.(word := st.word + [arg[0]]), arg[1..]);
      assert st.word + [arg[0]] + arg[1..] == st.word + arg;
    }
  }

  /** Quoted text adds exactly the quoted string to the current word, whatever characters
      it holds, and begins a word where none was begun. */
  lemma ScanQuote(st: LexState, arg: string)
    requires st.mode in {Blank, Operator, InWord} && NUL !in arg
    ensures Scan(st, Quote(arg)) == st.(mode := InWord, word := st.word + arg)
  {
    var inside := st.(mode := Quoted);
    assert Quote(arg) == "'" + (EscapeQuotes(arg) + "'");
    ScanAppend(st, "'", EscapeQuotes(arg) + "'");
    ScanOne(st, '\'');
    ScanAppend(inside, EscapeQuotes(arg), "'");
    ScanEscaped(inside, arg);
    ScanOne(inside.(word := st.word + arg), '\'');
  }

  lemma NulFreeConcat(a: string, b: string)
    requires NUL !in a && NUL !in b
    ensures NUL !in a + b
  {}

  lemma {:induction false} EscapeNulFree(arg: string)
    requires NUL !in arg
    ensures NUL !in EscapeQuotes(arg)
  {
    if arg != "" {
      var head := if arg[0] == '\'' then "'\\''" else [arg[0]];
      assert NUL !in head by { assert arg[0] in arg; }
      EscapeNulFree(arg[1..]);
      NulFreeConcat(head, EscapeQuotes(arg[1..]));
    }
  }

  lemma QuoteNulFree(arg: string)
    requires NUL !in arg
    ensures NUL !in Quote(arg)
  {
    EscapeNulFree(arg);
    NulFreeConcat("'", EscapeQuotes(arg));
    NulFreeConcat("'" + EscapeQuotes(arg), "'");
  }

  lemma {:induction false} ScanStuck(st: LexState, s: string)
    requires st.mode == Stuck || NUL in s
    ensures Scan(st, s).mode == Stuck
    decreases |s|
  {
    if s != "" {
      assert s == [s[0]] + s[1..];
      ScanStuck(Step(st, s[0]), s[1..]);
    }
  }

  // ---------------------------------------------------------------- rendered commands

  /** The pieces the adapter's command lines are assembled from. */
  datatype Piece = Plain(word: string) | Arg(value: string) | Bar | Great

  predicate PlainWord(w: string) { w != "" && forall c :: c in w ==> IsPlain(c) }

  predicate Renders(piece: Piece) {
    match piece
    case Plain(w) => PlainWord(w)
    case Arg(v) => NUL !in v
    case _ => true
  }

  function RenderPiece(piece: Piece): string {
    match piece
    case Plain(w) => w
    case Arg(v) => Quote(v)
    case Bar => "|"
    case Great => ">"
  }

  function Render(pieces: seq<Piece>): string {
    if pieces == [] then ""
    else if |pieces| == 1 then RenderPiece(pieces[0])
    else RenderPiece(pieces[0]) + " " + Render(pieces[1..])
  }

  function TokenOf(piece: Piece): Token {
    match piece
    case Plain(w) => Word(w)
    case Arg(v) => Word(v)
    case Bar => Pipe
    case Great => Into
  }

  function TokensOf(pieces: seq<Piece>): seq<Token> {
    seq(|pieces|, i requires 0 <= i < |pieces| => TokenOf(pieces[i]))
  }

  lemma {:induction false} ScanPlain(st: LexState, w: string)
    requires st.mode in {Blank, InWord} && forall c :: c in w ==> IsPlain(c)
    ensures Scan(st, w) == if w == "" then st else st.(mode := InWord, word := st.word + w)
    decreases |w|
  {
    if w != "" {
      assert IsPlain(w[0]) by { assert w[0] in w; }
      var st1 := st.(mode := InWord, word := st.word + [w[0]]);
      assert Step(st, w[0]) == st1;
      ScanPlain(st1, w[1..]);
      assert st.word + [w[0]] + w[1..] == st.word + w;
    }
  }

  lemma ScanPiece(tokens: seq<Token>, piece: Piece)
    requires Renders(piece)
    ensures var st := Scan(LexState(Blank, "", tokens), RenderPiece(piece));
            st.mode in {InWord, Operator} && Delimit(st) == tokens + [TokenOf(piece)]
  {
    var st := LexState(Blank, "", tokens);
    match piece
    case Plain(w) =>
      ScanPlain(st, w);
      assert "" + w == w;
    case Arg(v) =>
      ScanQuote(st, v);
      assert "" + v == v;
    case Bar => ScanOne(st, '|');
    case Great => ScanOne(st, '>');
  }

  /** A piece and the space after it add its token. */
  lemma ScanSpaced(tokens: seq<Token>, piece: Piece, tail: string)
    requires Renders(piece)
    ensures Scan(LexState(Blank, "", tokens), RenderPiece(piece) + (" " + tail))
         == Scan(LexState(Blank, "", tokens + [TokenOf(piece)]), tail)
  {
    var st, head := LexState(Blank, "", tokens), RenderPiece(piece);
    ScanPiece(tokens, piece);
    ScanAppend(st, head, " " + tail);
    var st1 := Scan(st, head);
    ScanAppend(st1, " ", tail);
    ScanOne(st1, ' ');
    assert Step(st1, ' ') == LexState(Blank, "", tokens + [TokenOf(piece)]);
  }

  lemma {:induction false} ScanRender(tokens: seq<Token>, pieces: seq<Piece>)
    requires |pieces| > 0 && forall piece :: piece in pieces ==> Renders(piece)
    ensures var st := Scan(LexState(Blank, "", tokens), Render(pieces));
            st.mode in {InWord, Operator} && Delimit(st) == tokens + TokensOf(pieces)
    decreases |pieces|
  {
    var tokens1 := tokens + [TokenOf(pieces[0])];
    if |pieces| == 1 {
      ScanPiece(tokens, pieces[0]);
      assert TokensOf(pieces) == [TokenOf(pieces[0])];
    } else {
      ScanSpaced(tokens, pieces[0], Render(pieces[1..]));
      assert Render(pieces) == RenderPiece(pieces[0]) + (" " + Render(pieces[1..]));
      ScanRender(tokens1, pieces[1..]);
      assert tokens1 + TokensOf(pieces[1..]) == tokens + TokensOf(pieces);
    }
  }

  /** A rendered command is tokenised back into exactly the pieces it was made of. */
  lemma LexRender(pieces: seq<Piece>)
    requires |pieces| > 0 && forall piece :: piece in pieces ==> Renders(piece)
    ensures Lex(Render(pieces)) == Some(TokensOf(pieces))
  {
    ScanRender([], pieces);
    assert [] + TokensOf(pieces) == TokensOf(pieces);
  }

  // ---------------------------------------------------------------- size

  /** Room the words take in a command line, each with a separator. */
  function Weight(words: seq<string>): nat {
    if words == [] then 0 else |words[0]| + 1 + Weight(words[1..])
  }

  function TokenWeight(token: Token): nat {
    match token case Word(w) => |w| + 1 case _ => 0
  }

  function TokensWeight(tokens: seq<Token>): nat {
    if tokens == [] then 0 else TokenWeight(tokens[0]) + TokensWeight(tokens[1..])
  }

  lemma {:induction false} WeightAppend(a: seq<Token>, b: seq<Token>)
    ensures TokensWeight(a + b) == TokensWeight(a) + TokensWeight(b)
  {
    if a == [] {
      assert a + b == b;
    } else {
      assert (a + b)[1..] == a[1..] + b;
      WeightAppend(a[1..], b);
    }
  }

  function StateWeight(st: LexState): nat { TokensWeight(st.tokens) + |st.word| }

  lemma StepWeight(st: LexState, c: char)
    ensures StateWeight(Step(st, c)) <= StateWeight(st) + 1
  {
    WeightAppend(st.tokens, [Word(st.word)]);
    WeightAppend(Delimit(st), [Pipe]);
    WeightAppend(Delimit(st), [Into]);
  }

  lemma {:induction false} ScanWeight(st: LexState, s: string)
    ensures StateWeight(Scan(st, s)) <= StateWeight(st) + |s|
    decreases |s|
  {
    if s != "" {
      StepWeight(st, s[0]);
      ScanWeight(Step(st, s[0]), s[1..]);
    }
  }

  /** The words of a command line take no more room than the line itself. */
  lemma LexWeight(s: string)
    requires Lex(s).Some?
    ensures TokensWeight(Lex(s).value) <= |s| + 1
  {
    ScanWeight(START, s);
    var st := Scan(START, s);
    WeightAppend(st.tokens, [Word(st.word)]);
  }

  /** The characters that have to be quoted, always or in some places, to stand for themselves
      (section 2.2 of Shell Command Language), and those of brace and history expansion. */
  predicate IsSpecial(c: char) {
    || c in {'|', '&', ';', '<', '>', '(', ')', '$', '`', '\\', '\"', '\'', ' ', '\t', '\n'}
    || c in {'*', '?', '[', '#', '~', '=', '!', '{', '}', '^'}
  }

  /** None of them stands for itself outside quotes. */
  lemma SpecialNotPlain(c: char)
    requires IsSpecial(c)
    ensures !IsPlain(c)
  {}
}
