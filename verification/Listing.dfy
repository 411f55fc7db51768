/** The directory listing: what `find -printf` prints for a directory and what the adapter's
    parser makes of it. */
module Listing {
  import opened Text

  datatype FileType = Regular | Directory | Symlink | OtherType

  /** `mtime` is None where the parser computes NaN. */
  datatype FileEntry = FileEntry(
    name: string, fileType: FileType, size: int, mode: int, owner: string, group: string, mtime: Option<int>)

  /** What the host knows about an entry; `ticks` is the modification time in units of 10^-10
      seconds, the precision that `%T@` prints. */
  datatype HostEntry = HostEntry(
    code: char, size: nat, mode: nat, owner: string, group: string, ticks: int, name: string)

  const TICKS_PER_SECOND: nat := 10_000_000_000
  const TICKS_PER_MS: nat := 10_000_000

  // ---------------------------------------------------------------- printing

  /** The last `width` decimal digits, with leading zeros. */
  function Padded(n: nat, width: nat): (s: string)
    ensures |s| == width && forall c :: c in s ==> IsDigit(c, 10)
  {
    if width == 0 then "" else Padded(n / 10, width - 1) + [Digit(n % 10)]
  }

  function Magnitude(n: int): nat { if n < 0 then -n else n }

  /** `%T@`. */
  function PrintTime(ticks: int): string {
    (if ticks < 0 then "-" else "")
    + (Print(Magnitude(ticks) / TICKS_PER_SECOND, 10) + ("." + Padded(Magnitude(ticks) % TICKS_PER_SECOND, 10)))
  }

  function Tabbed(fields: seq<string>, last: string): string {
    if fields == [] then last else fields[0] + "\t" + Tabbed(fields[1..], last)
  }

  function FieldsOf(e: HostEntry): seq<string> {
    [[e.code], Print(e.size, 10), Print(e.mode, 8), e.owner, e.group, PrintTime(e.ticks)]
  }

  /** The seven fields of `%y\t%s\t%m\t%u\t%g\t%T@\t%f`. */
  function PrintBody(e: HostEntry): string { Tabbed(FieldsOf(e), e.name) }

  function PrintListing(entries: seq<HostEntry>): string {
    if entries == [] then "" else PrintBody(entries[0]) + "\n" + PrintListing(entries[1..])
  }

  // ---------------------------------------------------------------- parsing

  function TypeOf(code: string): FileType {
    if code == "f" then Regular else if code == "d" then Directory else if code == "l" then Symlink else OtherType
  }

  function Pow10(n: nat): (p: nat)
    ensures p > 0
  {
    if n == 0 then 1 else 10 * Pow10(n - 1)
  }

  /** `Math.round(num / scale)`: to the nearest integer, halves upwards. */
  function RoundDiv(num: int, scale: nat): int
    requires scale > 0
  {
    (2 * num + scale) / (2 * scale)
  }

  /** The numeral at the front of `u`, times 1000, rounded. */
  function NumeralMs(u: string, negative: bool): Option<int> {
    var whole := DigitPrefix(u, 10);
    var rest := u[|whole|..];
    var part := if rest != "" && rest[0] == '.' then DigitPrefix(rest[1..], 10) else "";
    if whole == "" && part == "" then None
    else
      var num := Value(whole + part, 10);
      Some(RoundDiv((if negative then 0 - num else num) * 1000, Pow10(|part|)))
  }

  /** `Math.round(parseFloat(value) * 1000)` on decimal numerals, exactly. */
  function ParseMs(value: string): Option<int> {
    var t := TrimStart(value);
    if t != "" && t[0] == '-' then NumeralMs(t[1..], true)
    else if t != "" && t[0] == '+' then NumeralMs(t[1..], false)
    else NumeralMs(t, false)
  }

  /** One line; None when the parser throws. */
  function ParseFindLine(line: string): Option<FileEntry> {
    var parts := Split(line, '\t');
    if |parts| < 7 then None
    else Some(FileEntry(Join(parts[6..], "\t"), TypeOf(parts[0]), ParseInt(parts[1], 10), ParseInt(parts[2], 8),
                        parts[3], parts[4], ParseMs(parts[5])))
  }

  function NonEmpty(lines: seq<string>): seq<string> {
    if lines == [] then []
    else (if lines[0] == "" then [] else [lines[0]]) + NonEmpty(lines[1..])
  }

  function ParseLines(lines: seq<string>): Option<seq<FileEntry>> {
    if lines == [] then Some([])
    else match (ParseFindLine(lines[0]), ParseLines(lines[1..]))
      case (Some(e), Some(rest)) => Some([e] + rest)
      case _ => None
  }

  function ParseListDir(stdout: string): Option<seq<FileEntry>> { ParseLines(NonEmpty(Split(stdout, '\n'))) }

  // ---------------------------------------------------------------- the promised result

  /** Nearest millisecond, halves upwards. */
  function RoundMs(ticks: int): (ms: int)
    ensures ms * TICKS_PER_MS - TICKS_PER_MS / 2 <= ticks < ms * TICKS_PER_MS + TICKS_PER_MS / 2
  {
    (ticks + TICKS_PER_MS / 2) / TICKS_PER_MS
  }

  function Expected(e: HostEntry): FileEntry {
    FileEntry(e.name, TypeOf([e.code]), e.size, e.mode, e.owner, e.group, Some(RoundMs(e.ticks)))
  }

  function ExpectedAll(entries: seq<HostEntry>): seq<FileEntry> {
    seq(|entries|, i requires 0 <= i < |entries| => Expected(entries[i]))
  }

  predicate FieldOk(s: string) { '\t' !in s && '\n' !in s }

  /** Type letters, owners and groups hold neither tabs nor line ends. */
  predicate PlainFields(e: HostEntry) { FieldOk([e.code]) && FieldOk(e.owner) && FieldOk(e.group) }

  // ---------------------------------------------------------------- numbers

  lemma MulShift(a: nat, p: nat)
    ensures Times(a * p, 10) == a * (10 * p)
  {}

  lemma ShiftSum(a: nat, p: nat, f: nat, d: nat)
    ensures Times(a * p + f, 10) + d == a * (10 * p) + (Times(f, 10) + d)
  {
    MulShift(a, p);
  }

  /** A digit more at the end of a numeral. */
  lemma ValueSnoc(front: string, digit: char, s: string)
    requires (forall c :: c in front ==> IsDigit(c, 10)) && IsDigit(digit, 10) && s == front + [digit]
    ensures forall c :: c in s ==> IsDigit(c, 10)
    ensures Value(s, 10) == Times(Value(front, 10), 10) + (digit as int - '0' as int)
  {
    assert [Digit(digit as int - '0' as int)] == [digit];
    ValueAppend(front, digit as int - '0' as int, 10);
  }

  predicate Digits(s: string) { forall c :: c in s ==> IsDigit(c, 10) }

  lemma ConcatStep(a: string, front: string, digit: char, p: nat)
    requires Digits(a) && Digits(front) && IsDigit(digit, 10) && Digits(a + front)
    requires Value(a + front, 10) == Value(a, 10) * p + Value(front, 10)
    ensures Digits(a + front + [digit]) && Digits(front + [digit])
    ensures Value(a + front + [digit], 10) == Value(a, 10) * (10 * p) + Value(front + [digit], 10)
  {
    ValueSnoc(a + front, digit, a + front + [digit]);
    ValueSnoc(front, digit, front + [digit]);
    ShiftSum(Value(a, 10), p, Value(front, 10), digit as int - '0' as int);
  }

  lemma DigitsApart(b: string)
    requires Digits(b) && b != ""
    ensures Digits(b[..|b| - 1]) && IsDigit(b[|b| - 1], 10) && b[..|b| - 1] + [b[|b| - 1]] == b
  {
    assert b[|b| - 1] in b;
    assert forall c :: c in b[..|b| - 1] ==> c in b;
  }

  lemma SameChars(a: string, front: string, digit: char, b: string)
    requires b == front + [digit]
    ensures a + b == a + front + [digit]
  {}

  lemma {:induction false} ValueConcat(a: string, b: string)
    requires Digits(a) && Digits(b)
    ensures Digits(a + b)
    ensures Value(a + b, 10) == Value(a, 10) * Pow10(|b|) + Value(b, 10)
    decreases |b|
  {
    if b == "" {
      assert a + b == a;
    } else {
      var front, digit := b[..|b| - 1], b[|b| - 1];
      DigitsApart(b);
      ValueConcat(a, front);
      ConcatStep(a, front, digit, Pow10(|front|));
      SameChars(a, front, digit, b);
    }
  }

  lemma {:induction false} ValueOfPadded(n: nat, width: nat)
    requires n < Pow10(width)
    ensures Value(Padded(n, width), 10) == n
    decreases width
  {
    if width > 0 {
      ValueOfPadded(n / 10, width - 1);
      ValueAppend(Padded(n / 10, width - 1), n % 10, 10);
    }
  }

  /** A decimal numeral with a fraction, as the parser reads it. */
  lemma ReadNumeral(whole: string, part: string, negative: bool)
    requires whole != "" && (forall c :: c in whole ==> IsDigit(c, 10)) && (forall c :: c in part ==> IsDigit(c, 10))
    ensures forall c :: c in whole + part ==> IsDigit(c, 10)
    ensures NumeralMs(whole + ("." + part), negative)
         == Some(RoundDiv((if negative then 0 - Value(whole + part, 10) else Value(whole + part, 10)) * 1000, Pow10(|part|)))
  {
    var u := whole + ("." + part);
    assert DigitPrefix(u, 10) == whole by { DigitPrefixStops(whole, "." + part, 10); }
    var rest := u[|whole|..];
    assert rest == "." + part;
    assert DigitPrefix(rest[1..], 10) == part by {
      assert rest[1..] == part && part + "" == part;
      DigitPrefixStops(part, "", 10);
    }
  }

  lemma ReadSign(u: string, negative: bool)
    requires u != "" && IsDigit(u[0], 10)
    ensures ParseMs((if negative then "-" else "") + u) == NumeralMs(u, negative)
  {
    var value := (if negative then "-" else "") + u;
    assert TrimStart(value) == value;
    if negative { assert value[1..] == u; } else { assert value == u; }
  }

  lemma ReadTime(whole: string, part: string, ticks: int)
    requires whole != "" && (forall c :: c in whole ==> IsDigit(c, 10)) && (forall c :: c in part ==> IsDigit(c, 10))
    ensures forall c :: c in whole + part ==> IsDigit(c, 10)
    ensures |part| == 10 && Value(whole + part, 10) == Magnitude(ticks) ==>
              ParseMs((if ticks < 0 then "-" else "") + (whole + ("." + part))) == Some(RoundMs(ticks))
  {
    var u := whole + ("." + part);
    ReadNumeral(whole, part, ticks < 0);
    assert IsDigit(u[0], 10) by { assert u[0] == whole[0] && whole[0] in whole; }
    ReadSign(u, ticks < 0);
    if |part| == 10 && Value(whole + part, 10) == Magnitude(ticks) {
      Pow10Ten();
      RoundTicks(ticks);
    }
  }

  lemma TimeRoundTrip(ticks: int)
    ensures ParseMs(PrintTime(ticks)) == Some(RoundMs(ticks))
  {
    var n := Magnitude(ticks);
    var whole, part := Print(n / TICKS_PER_SECOND, 10), Padded(n % TICKS_PER_SECOND, 10);
    DigitsOfTime(n);
    ReadTime(whole, part, ticks);
    assert PrintTime(ticks) == (if ticks < 0 then "-" else "") + (whole + ("." + part));
  }

  lemma DigitsOfTime(n: nat)
    ensures var whole, part := Print(n / TICKS_PER_SECOND, 10), Padded(n % TICKS_PER_SECOND, 10);
            (forall c :: c in whole + part ==> IsDigit(c, 10)) && Value(whole + part, 10) == n
  {
    ValueConcat(Print(n / TICKS_PER_SECOND, 10), Padded(n % TICKS_PER_SECOND, 10));
    ValueOfPrint(n / TICKS_PER_SECOND, 10);
    Pow10Ten();
    ValueOfPadded(n % TICKS_PER_SECOND, 10);
  }

  lemma Pow10Ten()
    ensures Pow10(10) == TICKS_PER_SECOND
  {
    assert Pow10(2) == 100;
    assert Pow10(4) == 10_000;
    assert Pow10(6) == 1_000_000;
    assert Pow10(8) == 100_000_000;
  }

  lemma RoundTicks(ticks: int)
    ensures RoundDiv(ticks * 1000, TICKS_PER_SECOND) == RoundMs(ticks)
  {}

  // ---------------------------------------------------------------- lines

  lemma {:induction false} TimeField(ticks: int)
    ensures FieldOk(PrintTime(ticks))
  {
    var n := Magnitude(ticks);
    assert forall c :: c in Print(n / TICKS_PER_SECOND, 10) ==> IsDigit(c, 10);
    assert forall c :: c in Padded(n % TICKS_PER_SECOND, 10) ==> IsDigit(c, 10);
  }

  lemma NumberField(n: nat, radix: nat)
    requires 2 <= radix <= 10
    ensures FieldOk(Print(n, radix))
  {
    assert forall c :: c in Print(n, radix) ==> IsDigit(c, radix);
  }

  lemma HeadAndTail(fields: seq<string>, rest: seq<string>)
    requires fields != []
    ensures [fields[0]] + (fields[1..] + rest) == fields + rest
  {}

  lemma {:induction false} SplitTabbed(fields: seq<string>, last: string)
    requires forall i :: 0 <= i < |fields| ==> '\t' !in fields[i]
    ensures Split(Tabbed(fields, last), '\t') == fields + Split(last, '\t')
    decreases |fields|
  {
    if fields == [] {
      assert fields + Split(last, '\t') == Split(last, '\t');
    } else {
      var tail := Tabbed(fields[1..], last);
      assert Split(Tabbed(fields, last), '\t') == [fields[0]] + Split(tail, '\t') by {
        assert Tabbed(fields, last) == fields[0] + ['\t'] + tail;
        SplitHead(fields[0], '\t', tail);
      }
      assert Split(tail, '\t') == fields[1..] + Split(last, '\t') by { SplitTabbed(fields[1..], last); }
      HeadAndTail(fields, Split(last, '\t'));
    }
  }

  lemma {:induction false} TabbedOneLine(fields: seq<string>, last: string)
    requires '\n' !in last && forall i :: 0 <= i < |fields| ==> '\n' !in fields[i]
    ensures '\n' !in Tabbed(fields, last) && (fields != [] ==> Tabbed(fields, last) != "")
    decreases |fields|
  {
    if fields != [] { TabbedOneLine(fields[1..], last); }
  }

  lemma FieldsPlain(e: HostEntry)
    requires PlainFields(e)
    ensures forall i :: 0 <= i < |FieldsOf(e)| ==> FieldOk(FieldsOf(e)[i])
  {
    TimeField(e.ticks);
    NumberField(e.size, 10);
    NumberField(e.mode, 8);
  }

  lemma LineRoundTrip(e: HostEntry)
    requires PlainFields(e)
    ensures ParseFindLine(PrintBody(e)) == Some(Expected(e))
  {
    var parts := Split(PrintBody(e), '\t');
    FieldsPlain(e);
    SplitTabbed(FieldsOf(e), e.name);
    assert parts[6..] == Split(e.name, '\t');
    JoinSplit(e.name, '\t');
    ParseIntOfPrint(e.size, 10);
    ParseIntOfPrint(e.mode, 8);
    TimeRoundTrip(e.ticks);
  }

  lemma BodyOneLine(e: HostEntry)
    requires PlainFields(e) && '\n' !in e.name
    ensures '\n' !in PrintBody(e) && PrintBody(e) != ""
  {
    FieldsPlain(e);
    TabbedOneLine(FieldsOf(e), e.name);
  }

  lemma PrintedLines(body: string, rest: string)
    requires '\n' !in body && body != ""
    ensures NonEmpty(Split(body + "\n" + rest, '\n')) == [body] + NonEmpty(Split(rest, '\n'))
  {
    SplitHead(body, '\n', rest);
    var lines := Split(rest, '\n');
    assert body + "\n" + rest == body + ['\n'] + rest;
    assert ([body] + lines)[1..] == lines;
  }

  lemma ParseOneMore(body: string, lines: seq<string>, e: FileEntry, rest: seq<FileEntry>)
    requires ParseFindLine(body) == Some(e) && ParseLines(lines) == Some(rest)
    ensures ParseLines([body] + lines) == Some([e] + rest)
  {
    assert ([body] + lines)[1..] == lines;
  }

  lemma ExpectedCons(entries: seq<HostEntry>)
    requires entries != []
    ensures ExpectedAll(entries) == [Expected(entries[0])] + ExpectedAll(entries[1..])
  {}

  lemma {:induction false} ListingLines(entries: seq<HostEntry>)
    requires forall i :: 0 <= i < |entries| ==> PlainFields(entries[i]) && '\n' !in entries[i].name
    ensures ParseListDir(PrintListing(entries)) == Some(ExpectedAll(entries))
    decreases |entries|
  {
    if entries == [] {
      assert Split("", '\n') == [""] && [""][1..] == [] && ExpectedAll(entries) == [];
    } else {
      var body, rest := PrintBody(entries[0]), PrintListing(entries[1..]);
      assert NonEmpty(Split(PrintListing(entries), '\n')) == [body] + NonEmpty(Split(rest, '\n')) by {
        BodyOneLine(entries[0]);
        PrintedLines(body, rest);
      }
      ListingLines(entries[1..]);
      assert ParseFindLine(body) == Some(Expected(entries[0])) by { LineRoundTrip(entries[0]); }
      ParseOneMore(body, NonEmpty(Split(rest, '\n')), Expected(entries[0]), ExpectedAll(entries[1..]));
      ExpectedCons(entries);
    }
  }

  // ---------------------------------------------------------------- names with line ends

  lemma {:induction false} NonEmptyPart(lines: seq<string>)
    ensures forall line :: line in NonEmpty(lines) ==> line in lines
    decreases |lines|
  {
    if lines != [] { NonEmptyPart(lines[1..]); }
  }

  lemma {:induction false} SplitChars(s: string, sep: char)
    ensures forall part :: part in Split(s, sep) ==> forall c :: c in part ==> c in s
  {
    if s != "" {
      SplitChars(s[1..], sep);
      var rest := Split(s[1..], sep);
      assert rest[0] in rest;
      assert forall part :: part in rest[1..] ==> part in rest;
    }
  }

  lemma {:induction false} JoinChars(parts: seq<string>, sep: string, bad: char)
    requires bad !in sep && forall part :: part in parts ==> bad !in part
    ensures bad !in Join(parts, sep)
    decreases |parts|
  {
    if |parts| >= 1 {
      assert parts[0] in parts;
      if |parts| > 1 {
        assert forall part :: part in parts[1..] ==> part in parts;
        JoinChars(parts[1..], sep, bad);
      }
    }
  }

  /** A parsed name never contains a line end. */
  lemma {:induction false} ParsedNames(lines: seq<string>)
    requires forall line :: line in lines ==> '\n' !in line
    requires ParseLines(lines).Some?
    ensures forall e :: e in ParseLines(lines).value ==> '\n' !in e.name
    decreases |lines|
  {
    if lines != [] {
      assert lines[0] in lines;
      assert forall line :: line in lines[1..] ==> line in lines;
      ParsedNames(lines[1..]);
      var parts := Split(lines[0], '\t');
      SplitChars(lines[0], '\t');
      assert forall part :: part in parts[6..] ==> part in parts;
      JoinChars(parts[6..], "\t", '\n');
    }
  }

  lemma {:induction false} LineEndBreaksListing(entries: seq<HostEntry>, i: nat)
    requires i < |entries| && '\n' in entries[i].name
    ensures ParseListDir(PrintListing(entries)) != Some(ExpectedAll(entries))
  {
    var lines := Split(PrintListing(entries), '\n');
    SplitPartsFree(PrintListing(entries), '\n');
    NonEmptyPart(lines);
    assert ExpectedAll(entries)[i] in ExpectedAll(entries);
    if ParseListDir(PrintListing(entries)).Some? {
      ParsedNames(NonEmpty(lines));
    }
  }

  /** The listing is read back exactly, in order, with every name (tabs included), the decimal
      size, the octal mode, and the time rounded to milliseconds, if and only if no name
      contains a line end. */
  lemma ListingRoundTrip(entries: seq<HostEntry>)
    requires forall i :: 0 <= i < |entries| ==> PlainFields(entries[i])
    ensures ParseListDir(PrintListing(entries)) == Some(ExpectedAll(entries))
            <==> forall i :: 0 <= i < |entries| ==> '\n' !in entries[i].name
  {
    if forall i :: 0 <= i < |entries| ==> '\n' !in entries[i].name {
      ListingLines(entries);
    } else {
      var i :| 0 <= i < |entries| && '\n' in entries[i].name;
      LineEndBreaksListing(entries, i);
    }
  }

  // ---------------------------------------------------------------- types, and lines that are not entries

  /** What a printed type letter is read as. */
  lemma TypesRead(e: HostEntry)
    requires PlainFields(e)
    ensures var read := ParseFindLine(PrintBody(e));
            && read.Some?
            && (read.value.fileType == Regular <==> e.code == 'f')
            && (read.value.fileType == Directory <==> e.code == 'd')
            && (read.value.fileType == Symlink <==> e.code == 'l')
            && (read.value.fileType == OtherType <==> e.code !in {'f', 'd', 'l'})
  {
    LineRoundTrip(e);
    assert [e.code][0] == e.code && "f"[0] == 'f' && "d"[0] == 'd' && "l"[0] == 'l';
  }

  function Count(s: string, c: char): nat {
    if s == "" then 0 else (if s[0] == c then 1 else 0) + Count(s[1..], c)
  }

  lemma {:induction false} SplitCount(s: string, sep: char)
    ensures |Split(s, sep)| == Count(s, sep) + 1
  {
    if s != "" { SplitCount(s[1..], sep); }
  }

  lemma {:induction false} LinesRead(lines: seq<string>)
    ensures ParseLines(lines).Some? <==> forall line :: line in lines ==> Count(line, '\t') >= 6
    decreases |lines|
  {
    if lines != [] {
      SplitCount(lines[0], '\t');
      LinesRead(lines[1..]);
      assert lines == [lines[0]] + lines[1..];
    }
  }

  lemma {:induction false} NonEmptyMember(lines: seq<string>, line: string)
    ensures line in NonEmpty(lines) <==> line in lines && line != ""
    decreases |lines|
  {
    if lines != [] {
      NonEmptyMember(lines[1..], line);
      assert lines == [lines[0]] + lines[1..];
    }
  }

  /** The parser reads an output if and only if every line that is not blank has six tabs or more;
      otherwise it throws. */
  lemma ListingReads(stdout: string)
    ensures ParseListDir(stdout).Some?
            <==> forall line :: line in Split(stdout, '\n') && line != "" ==> Count(line, '\t') >= 6
  {
    var lines := Split(stdout, '\n');
    LinesRead(NonEmpty(lines));
    forall line: string ensures line in NonEmpty(lines) <==> line in lines && line != "" { NonEmptyMember(lines, line); }
  }

  lemma NotASpace(c: char, radix: nat)
    requires 2 <= radix <= 10 && (IsDigit(c, radix) || c == '-' || c == '+')
    ensures !IsSpace(c)
  {}

  lemma SignRead(s: string, sign: char, radix: nat)
    requires 2 <= radix <= 10 && s != "" && IsDigit(s[0], radix) && sign in {'-', '+'}
    ensures ParseInt([sign] + s, radix)
         == if sign == '-' then 0 - Value(DigitPrefix(s, radix), radix) else Value(DigitPrefix(s, radix), radix)
  {
    var t := [sign] + s;
    NotASpace(sign, radix);
    assert t[0] == sign && TrimStart(t) == t && t[1..] == s;
  }

  lemma PlainRead(s: string, radix: nat)
    requires 2 <= radix <= 10 && s != "" && IsDigit(s[0], radix)
    ensures ParseInt(s, radix) == Value(DigitPrefix(s, radix), radix)
  {
    NotASpace(s[0], radix);
  }

  /** How the parser reads a number: a sign, the digits, and nothing after them. */
  lemma NumbersRead(n: nat, junk: string, radix: nat)
    requires 2 <= radix <= 10 && (junk == "" || !IsDigit(junk[0], radix))
    ensures ParseInt(Print(n, radix) + junk, radix) == n
    ensures ParseInt(['+'] + (Print(n, radix) + junk), radix) == n
    ensures ParseInt(['-'] + (Print(n, radix) + junk), radix) == 0 - n
  {
    var s := Print(n, radix) + junk;
    assert IsDigit(s[0], radix) by { assert s[0] == Print(n, radix)[0] && Print(n, radix)[0] in Print(n, radix); }
    PlainRead(s, radix);
    SignRead(s, '+', radix);
    SignRead(s, '-', radix);
    assert Value(DigitPrefix(s, radix), radix) == n by {
      DigitPrefixStops(Print(n, radix), junk, radix);
      ValueOfPrint(n, radix);
    }
  }
}
