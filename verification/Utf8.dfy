/** `chunk.toString('utf8')` and what decoding chunk by chunk does to text that is not ASCII.
    The decoder replaces what is ill-formed as section 3.9 of the Unicode Standard recommends:
    one U+FFFD for each maximal part of a character. */
module Utf8 {
  import opened Text
  import opened Base64
  import opened FileSystem
  import opened Shell
  import opened SshExec
  import opened Adapter
  import CommandMeaning

  const REPLACEMENT: char := '\U{FFFD}'

  // ---------------------------------------------------------------- bytes

  predicate Continuation(b: byte) { 0x80 <= b < 0xC0 }

  /** How many bytes are to follow a first byte; none for those that begin no character. */
  function Announced(first: byte): nat {
    if 0xC2 <= first <= 0xDF then 1
    else if 0xE0 <= first <= 0xEF then 2
    else if 0xF0 <= first <= 0xF4 then 3
    else 0
  }

  /** The second byte, which rules out overlong forms, surrogates and what is above U+10FFFF. */
  predicate SecondOk(first: byte, b: byte) {
    && Continuation(b)
    && (first == 0xE0 ==> b >= 0xA0)
    && (first == 0xED ==> b < 0xA0)
    && (first == 0xF0 ==> b >= 0x90)
    && (first == 0xF4 ==> b < 0x90)
  }

  // ---------------------------------------------------------------- decoding

  /** How many bytes the first decoding step takes: a character, or the longest part of one. */
  function Taken(b: seq<byte>): (k: nat)
    requires b != []
    ensures 1 <= k <= |b| && k <= Announced(b[0]) + 1
    ensures forall i :: 1 <= i < k ==> Continuation(b[i])
    ensures k > 1 ==> SecondOk(b[0], b[1])
  {
    var n := Announced(b[0]);
    if n == 0 || |b| == 1 || !SecondOk(b[0], b[1]) then 1
    else if n == 1 || |b| == 2 || !Continuation(b[2]) then 2
    else if n == 2 || |b| == 3 || !Continuation(b[3]) then 3
    else 4
  }

  function Two(a: int, b: int): int { (a - 0xC0) * 64 + (b - 0x80) }

  function Three(a: int, b: int, c: int): int { (a - 0xE0) * 4096 + (b - 0x80) * 64 + (c - 0x80) }

  function Four(a: int, b: int, c: int, d: int): int {
    (a - 0xF0) * 262144 + (b - 0x80) * 4096 + (c - 0x80) * 64 + (d - 0x80)
  }

  function FirstChar(b: seq<byte>): char
    requires b != []
  {
    if b[0] < 0x80 then b[0] as char
    else if Announced(b[0]) == 0 || Taken(b) <= Announced(b[0]) then REPLACEMENT
    else if Announced(b[0]) == 1 then Two(b[0], b[1]) as char
    else if Announced(b[0]) == 2 then Three(b[0], b[1], b[2]) as char
    else Four(b[0], b[1], b[2], b[3]) as char
  }

  function Decode(b: seq<byte>): string {
    if b == [] then "" else [FirstChar(b)] + Decode(b[Taken(b)..])
  }

  // ---------------------------------------------------------------- encoding

  function CharBytes(c: char): seq<byte> {
    var v := c as int;
    var q := v / 64;
    var r := q / 64;
    if v < 0x80 then [v]
    else if v < 0x800 then [0xC0 + q, 0x80 + v % 64]
    else if v < 0x1_0000 then [0xE0 + r, 0x80 + q % 64, 0x80 + v % 64]
    else [0xF0 + r / 64, 0x80 + r % 64, 0x80 + q % 64, 0x80 + v % 64]
  }

  function EncodeText(s: string): seq<byte> {
    if s == "" then [] else CharBytes(s[0]) + EncodeText(s[1..])
  }

  lemma CharBytesShape(c: char)
    ensures var b := CharBytes(c);
            && |b| >= 1 && !Continuation(b[0]) && |b| == Announced(b[0]) + 1
            && (|b| > 1 ==> SecondOk(b[0], b[1]))
            && (forall i :: 1 <= i < |b| ==> Continuation(b[i]))
  {}

  lemma CharBytesValue(c: char)
    ensures var b, v := CharBytes(c), c as int;
            && (|b| == 1 ==> b[0] == v < 0x80)
            && (|b| > 1 ==> b[0] >= 0x80)
            && (|b| == 2 ==> Two(b[0], b[1]) == v)
            && (|b| == 3 ==> Three(b[0], b[1], b[2]) == v)
            && (|b| == 4 ==> Four(b[0], b[1], b[2], b[3]) == v)
  {
    var v := c as int;
    var q := v / 64;
    var r := q / 64;
    assert v == q * 64 + v % 64 && q == r * 64 + q % 64 && r == r / 64 * 64 + r % 64;
    assert v >= 0x800 ==> v == r * 4096 + q % 64 * 64 + v % 64;
    assert v >= 0x1_0000 ==> v == r / 64 * 262144 + r % 64 * 4096 + q % 64 * 64 + v % 64;
  }

  lemma WholeTaken(b: seq<byte>, rest: seq<byte>)
    requires b != [] && |b| == Announced(b[0]) + 1
    requires |b| > 1 ==> SecondOk(b[0], b[1])
    requires forall i :: 1 <= i < |b| ==> Continuation(b[i])
    ensures Taken(b + rest) == |b|
  {}

  lemma CharRoundTrip(c: char, rest: seq<byte>)
    ensures Taken(CharBytes(c) + rest) == |CharBytes(c)|
    ensures FirstChar(CharBytes(c) + rest) == c
  {
    var b := CharBytes(c);
    CharBytesShape(c);
    WholeTaken(b, rest);
    assert forall i :: 0 <= i < |b| ==> (b + rest)[i] == b[i];
    CharBytesValue(c);
  }

  /** Undivided, every text is read back. */
  lemma {:induction false} TextRoundTrip(s: string)
    ensures Decode(EncodeText(s)) == s
  {
    if s != "" {
      CharRoundTrip(s[0], EncodeText(s[1..]));
      TextRoundTrip(s[1..]);
    }
  }

  // ---------------------------------------------------------------- division into chunks

  /** The chunk does not begin inside a character. */
  predicate BeginsWhole(chunk: seq<byte>) { chunk == [] || !Continuation(chunk[0]) }

  lemma SameStep(a: seq<byte>, b: seq<byte>)
    requires a != [] && BeginsWhole(b)
    ensures Taken(a + b) == Taken(a) && FirstChar(a + b) == FirstChar(a)
  {
    assert forall i :: 0 <= i < |a| ==> (a + b)[i] == a[i];
    assert b != [] ==> (a + b)[|a|] == b[0];
  }

  lemma Unfold(b: seq<byte>)
    requires b != []
    ensures Decode(b) == [FirstChar(b)] + Decode(b[Taken(b)..])
  {}

  lemma DecodeFirst(a: seq<byte>, b: seq<byte>)
    requires a != [] && BeginsWhole(b)
    ensures Decode(a + b) == [FirstChar(a)] + Decode(a[Taken(a)..] + b)
  {
    SameStep(a, b);
    assert (a + b)[Taken(a)..] == a[Taken(a)..] + b;
    Unfold(a + b);
  }

  lemma Glue(whole: string, c: char, later: string, before: string, after: string)
    requires whole == [c] + later && later == before + after
    ensures whole == ([c] + before) + after
  {}

  /** Between characters, decoding the parts is decoding the whole, well-formed or not. */
  lemma {:induction false} DecodeConcat(a: seq<byte>, b: seq<byte>)
    requires BeginsWhole(b)
    ensures Decode(a + b) == Decode(a) + Decode(b)
    decreases |a|
  {
    if a == [] {
      assert a + b == b && Decode(a) == "";
    } else {
      var k := Taken(a);
      DecodeFirst(a, b);
      Unfold(a);
      DecodeConcat(a[k..], b);
      Glue(Decode(a + b), FirstChar(a), Decode(a[k..] + b), Decode(a[k..]), Decode(b));
    }
  }

  lemma {:induction false} WholeChunks(chunks: seq<seq<byte>>)
    requires forall i :: 0 <= i < |chunks| ==> BeginsWhole(chunks[i])
    ensures Decoded(Decode, chunks) == Decode(Concat(chunks))
  {
    if chunks != [] {
      var front, last := chunks[..|chunks| - 1], chunks[|chunks| - 1];
      assert front + [last] == chunks;
      WholeChunks(front);
      ConcatSnoc(front, last);
      DecodeConcat(Concat(front), last);
    }
  }

  /** How many bytes can begin a character. */
  function Firsts(b: seq<byte>): nat {
    if b == [] then 0 else (if Continuation(b[0]) then 0 else 1) + Firsts(b[1..])
  }

  lemma {:induction false} FirstsConcat(a: seq<byte>, b: seq<byte>)
    ensures Firsts(a + b) == Firsts(a) + Firsts(b)
    decreases |a|
  {
    if a == [] {
      assert a + b == b;
    } else {
      assert (a + b)[1..] == a[1..] + b;
      FirstsConcat(a[1..], b);
    }
  }

  lemma {:induction false} NoFirsts(b: seq<byte>)
    requires forall i :: 0 <= i < |b| ==> Continuation(b[i])
    ensures Firsts(b) == 0
  {
    if b != [] { NoFirsts(b[1..]); }
  }

  lemma {:induction false} TextFirsts(s: string)
    ensures Firsts(EncodeText(s)) == |s|
  {
    if s != "" {
      var b := CharBytes(s[0]);
      CharBytesShape(s[0]);
      NoFirsts(b[1..]);
      FirstsConcat(b, EncodeText(s[1..]));
      TextFirsts(s[1..]);
    }
  }

  /** Every such byte gives a character, and a beginning inside a character gives one more. */
  lemma {:induction false} DecodeLength(b: seq<byte>)
    ensures |Decode(b)| >= Firsts(b) + if BeginsWhole(b) then 0 else 1
    decreases |b|
  {
    if b != [] {
      var k := Taken(b);
      var head, tail := b[..k], b[k..];
      assert b == head + tail && head[0] == b[0];
      FirstsConcat(head, tail);
      NoFirsts(head[1..]);
      DecodeLength(tail);
    }
  }

  lemma {:induction false} ChunksLength(chunks: seq<seq<byte>>)
    ensures |Decoded(Decode, chunks)| >= Firsts(Concat(chunks))
    ensures (exists i :: 0 <= i < |chunks| && !BeginsWhole(chunks[i])) ==>
              |Decoded(Decode, chunks)| > Firsts(Concat(chunks))
  {
    if chunks != [] {
      var front, last := chunks[..|chunks| - 1], chunks[|chunks| - 1];
      assert front + [last] == chunks;
      ChunksLength(front);
      ConcatSnoc(front, last);
      FirstsConcat(Concat(front), last);
      DecodeLength(last);
      assert forall i :: 0 <= i < |front| ==> chunks[i] == front[i];
    }
  }

  /** Text decoded chunk by chunk comes out as it was if and only if no chunk begins inside a
      character; otherwise it even comes out longer. */
  lemma ChunkedText(s: string, chunks: seq<seq<byte>>)
    requires Concat(chunks) == EncodeText(s)
    ensures Decoded(Decode, chunks) == s <==> forall i :: 0 <= i < |chunks| ==> BeginsWhole(chunks[i])
    ensures |Decoded(Decode, chunks)| >= |s|
    ensures Decoded(Decode, chunks) == s <==> |Decoded(Decode, chunks)| == |s|
  {
    TextFirsts(s);
    ChunksLength(chunks);
    if forall i :: 0 <= i < |chunks| ==> BeginsWhole(chunks[i]) {
      WholeChunks(chunks);
      TextRoundTrip(s);
    }
  }

  /** The same about a whole `exec`: the caller gets the text that the command printed if and
      only if no chunk of the output begins inside a character. */
  lemma ExecText(s: string, events: seq<StreamEvent>)
    requires Concat(Chunks(events, false)) == EncodeText(s) && FirstClose(events).Some?
    ensures ResultOf(Decode, events).value.stdout == s
            <==> forall i :: 0 <= i < |Chunks(events, false)| ==> BeginsWhole(Chunks(events, false)[i])
  {
    ChunkedText(s, Chunks(events, false));
  }

  /** This decoder is right on ASCII, which is all that the file transfer needs. */
  lemma {:induction false} DecodeAscii(b: seq<byte>)
    requires AllAscii(b)
    ensures Decode(b) == CharsOf(b)
  {
    if b != [] {
      assert Taken(b) == 1 && FirstChar(b) == b[0] as char;
      Unfold(b);
      DecodeAscii(b[1..]);
      assert CharsOf(b) == [b[0] as char] + CharsOf(b[1..]);
    }
  }

  lemma DecodeIsADecoder()
    ensures DecodesAscii(Decode)
  {
    forall b | AllAscii(b) ensures Decode(b) == CharsOf(b) { DecodeAscii(b); }
  }

  /** The file round trip with this decoder: any bytes, written and read back in any chunks. */
  lemma FileTransfer(h: Host, p: string, b: seq<byte>, fs: Fs, events: seq<StreamEvent>)
    requires PathOk(p) && Writable(fs, Resolve(p))
    ensures var written := Run(h, Command(WriteFile(p, b)), [], fs);
            && written == Done(fs[Resolve(p) := File(b)], [], 0)
            && var read := Run(h, ReadCommand(p), [], written.fs);
            && read.Done? && read.fs == written.fs && read.status == 0
            && (Concat(Chunks(events, false)) == read.stdout && FirstClose(events) == Some(Some(read.status)) ==>
                  && ResultOf(Decode, events).Some?
                  && ReadBytes(ResultOf(Decode, events).value.stdout) == b)
  {
    DecodeIsADecoder();
    CommandMeaning.FileRoundTrip(h, p, b, fs, Decode, events);
  }

  /** The failing case: a name like "é" whose two bytes arrive in two chunks. */
  lemma DividedCharacter(c: char)
    requires c as int >= 0x80
    ensures var b := CharBytes(c);
            |Decoded(Decode, [b[..1], b[1..]])| > 1 && Decoded(Decode, [b]) == [c]
  {
    var b := CharBytes(c);
    var s := [c];
    CharBytesShape(c);
    assert s[1..] == "" && EncodeText(s) == b + [];
    var cut, tail, whole := [b[..1], b[1..]], [b[1..]], [b];
    assert cut[1..] == tail && Concat(tail) == b[1..] + Concat(tail[1..]) && |tail[1..]| == 0;
    assert Concat(cut) == b;
    assert |whole[1..]| == 0 && Concat(whole) == b;
    ChunkedText(s, cut);
    ChunkedText(s, whole);
    assert !BeginsWhole(cut[1]);
  }
}
