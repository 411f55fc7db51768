/** One command run over the SSH channel: output arrives in chunks of bytes, each decoded
    and appended on its own, until the channel closes. */
module SshExec {
  import opened Text
  import opened Base64
  import opened Shell

  datatype ExecResult = ExecResult(stdout: string, stderr: string, exitCode: Option<int>)

  datatype StreamEvent = Data(chunk: seq<byte>) | ErrData(chunk: seq<byte>) | Close(code: Option<int>)

  /** `chunk.toString('utf8')`; of its behaviour only the part on ASCII bytes is used. */
  type Decoder = seq<byte> -> string

  predicate AllAscii(b: seq<byte>) { forall i :: 0 <= i < |b| ==> b[i] < 128 }

  ghost predicate DecodesAscii(decode: Decoder) {
    forall b :: AllAscii(b) ==> decode(b) == CharsOf(b)
  }

  function Concat(chunks: seq<seq<byte>>): seq<byte> {
    if chunks == [] then [] else chunks[0] + Concat(chunks[1..])
  }

  /** The chunks decoded one by one. */
  function Decoded(decode: Decoder, chunks: seq<seq<byte>>): string {
    if chunks == [] then "" else Decoded(decode, chunks[..|chunks| - 1]) + decode(chunks[|chunks| - 1])
  }

  /** The chunks of one stream among the events before the channel closes. */
  function Chunks(events: seq<StreamEvent>, err: bool): seq<seq<byte>> {
    if events == [] || events[0].Close? then []
    else (if events[0].ErrData? == err then [events[0].chunk] else []) + Chunks(events[1..], err)
  }

  function FirstClose(events: seq<StreamEvent>): Option<Option<int>> {
    if events == [] then None
    else if events[0].Close? then Some(events[0].code)
    else FirstClose(events[1..])
  }

  /** What the caller is promised: nothing before the channel closes; then exactly the output
      that came before, whatever arrives later. */
  function ResultOf(decode: Decoder, events: seq<StreamEvent>): Option<ExecResult> {
    match FirstClose(events)
    case None => None
    case Some(code) =>
      Some(ExecResult(Decoded(decode, Chunks(events, false)), Decoded(decode, Chunks(events, true)), code))
  }

  /** One more event: it counts if the channel was still open. */
  lemma {:induction false} Snoc(events: seq<StreamEvent>, e: StreamEvent, err: bool)
    ensures FirstClose(events).Some? ==>
              FirstClose(events + [e]) == FirstClose(events) && Chunks(events + [e], err) == Chunks(events, err)
    ensures FirstClose(events).None? ==>
              FirstClose(events + [e]) == FirstClose([e]) && Chunks(events + [e], err) == Chunks(events, err) + Chunks([e], err)
  {
    if events == [] {
      assert events + [e] == [e];
    } else {
      assert (events + [e])[1..] == events[1..] + [e] && (events + [e])[0] == events[0];
      Snoc(events[1..], e, err);
      if !events[0].Close? && FirstClose(events).None? {
        var head := if events[0].ErrData? == err then [events[0].chunk] else [];
        assert head + (Chunks(events[1..], err) + Chunks([e], err)) == head + Chunks(events[1..], err) + Chunks([e], err);
      }
    }
  }

  /** The variables that the callbacks of `exec` share. */
  class ExecCall {
    var stdout: string
    var stderr: string
    var settled: Option<ExecResult>

    constructor ()
      ensures stdout == "" && stderr == "" && settled == None
    {
      stdout, stderr, settled := "", "", None;
    }

    method OnData(decode: Decoder, chunk: seq<byte>)
      modifies this
      ensures stdout == old(stdout) + decode(chunk) && stderr == old(stderr) && settled == old(settled)
    {
      stdout := stdout + decode(chunk);
    }

    method OnErrData(decode: Decoder, chunk: seq<byte>)
      modifies this
      ensures stderr == old(stderr) + decode(chunk) && stdout == old(stdout) && settled == old(settled)
    {
      stderr := stderr + decode(chunk);
    }

    /** A promise is settled by its first resolution only. */
    method OnClose(code: Option<int>)
      modifies this
      ensures stdout == old(stdout) && stderr == old(stderr)
      ensures settled == if old(settled).Some? then old(settled) else Some(ExecResult(stdout, stderr, code))
    {
      if settled.None? {
        settled := Some(ExecResult(stdout, stderr, code));
      }
    }
  }

  /** The callbacks, fed the events in order, keep that promise. */
  method Exec(decode: Decoder, events: seq<StreamEvent>) returns (r: Option<ExecResult>)
    ensures r == ResultOf(decode, events)
  {
    var call := new ExecCall();
    for i := 0 to |events|
      invariant call.settled == ResultOf(decode, events[..i])
      invariant call.settled.None? ==>
                  && call.stdout == Decoded(decode, Chunks(events[..i], false))
                  && call.stderr == Decoded(decode, Chunks(events[..i], true))
    {
      assert events[..i + 1] == events[..i] + [events[i]];
      OneEvent(decode, events[..i], events[i]);
      match events[i]
      case Data(chunk) => call.OnData(decode, chunk);
      case ErrData(chunk) => call.OnErrData(decode, chunk);
      case Close(code) => call.OnClose(code);
    }
    assert events[..|events|] == events;
    r := call.settled;
  }

  lemma OneEvent(decode: Decoder, events: seq<StreamEvent>, e: StreamEvent)
    ensures ResultOf(decode, events).Some? ==> ResultOf(decode, events + [e]) == ResultOf(decode, events)
    ensures ResultOf(decode, events).None? ==>
              var out, err := Decoded(decode, Chunks(events, false)), Decoded(decode, Chunks(events, true));
              var out', err' := Decoded(decode, Chunks(events + [e], false)), Decoded(decode, Chunks(events + [e], true));
              && (e.Close? ==> ResultOf(decode, events + [e]) == Some(ExecResult(out, err, e.code)))
              && (!e.Close? ==> ResultOf(decode, events + [e]) == None)
              && (e.Data? ==> out' == out + decode(e.chunk) && err' == err)
              && (e.ErrData? ==> out' == out && err' == err + decode(e.chunk))
  {
    Snoc(events, e, false);
    Snoc(events, e, true);
    assert [e][1..] == [];
    DecodedSnoc(decode, Chunks(events, false), Chunks([e], false));
    DecodedSnoc(decode, Chunks(events, true), Chunks([e], true));
  }

  lemma DecodedSnoc(decode: Decoder, chunks: seq<seq<byte>>, last: seq<seq<byte>>)
    requires |last| <= 1
    ensures Decoded(decode, chunks + last) == if last == [] then Decoded(decode, chunks) else Decoded(decode, chunks) + decode(last[0])
  {
    if last == [] { assert chunks + last == chunks; } else { assert (chunks + last)[..|chunks|] == chunks; }
  }

  /** ASCII output is decoded correctly however it is cut into chunks. */
  lemma {:induction false} DecodedAscii(decode: Decoder, chunks: seq<seq<byte>>)
    requires DecodesAscii(decode) && AllAscii(Concat(chunks))
    ensures Decoded(decode, chunks) == CharsOf(Concat(chunks))
  {
    if chunks != [] {
      var front, last := chunks[..|chunks| - 1], chunks[|chunks| - 1];
      assert Concat(chunks) == Concat(front) + last by {
        assert front + [last] == chunks;
        ConcatSnoc(front, last);
      }
      AsciiParts(Concat(front), last);
      DecodedAscii(decode, front);
    }
  }

  lemma AsciiParts(a: seq<byte>, b: seq<byte>)
    requires AllAscii(a + b)
    ensures AllAscii(a) && AllAscii(b) && CharsOf(a + b) == CharsOf(a) + CharsOf(b)
  {
    assert forall i :: 0 <= i < |a| ==> (a + b)[i] == a[i];
    assert forall i :: 0 <= i < |b| ==> (a + b)[|a| + i] == b[i];
  }

  lemma {:induction false} ConcatSnoc(front: seq<seq<byte>>, last: seq<byte>)
    ensures Concat(front + [last]) == Concat(front) + last
  {
    if front == [] {
      assert front + [last] == [last];
    } else {
      assert (front + [last])[1..] == front[1..] + [last];
      ConcatSnoc(front[1..], last);
    }
  }

  lemma ChunksCons(e: StreamEvent, rest: seq<StreamEvent>, err: bool)
    ensures !e.Close? ==> Chunks([e] + rest, err) == (if e.ErrData? == err then [e.chunk] else []) + Chunks(rest, err)
    ensures e.Close? ==> Chunks([e] + rest, err) == []
    ensures FirstClose([e] + rest) == if e.Close? then Some(e.code) else FirstClose(rest)
  {
    assert ([e] + rest)[1..] == rest;
  }

  lemma FourEvents(a: seq<byte>, b: seq<byte>, c: seq<byte>, code: Option<int>, later: seq<StreamEvent>, err: bool)
    ensures var events := [Data(a)] + ([ErrData(b)] + ([Data(c)] + ([Close(code)] + later)));
            Chunks(events, err) == (if err then [b] else [a, c]) && FirstClose(events) == Some(code)
  {
    var closing := [Close(code)] + later;
    var third := [Data(c)] + closing;
    var second := [ErrData(b)] + third;
    ChunksCons(Close(code), later, err);
    ChunksCons(Data(c), closing, err);
    ChunksCons(ErrData(b), third, err);
    ChunksCons(Data(a), second, err);
  }

  /** The two streams are kept apart, each in order; the code is that of the close, and what comes
      after it is not waited for. */
  lemma StreamsApart(decode: Decoder, a: seq<byte>, b: seq<byte>, c: seq<byte>, code: Option<int>, later: seq<StreamEvent>)
    ensures ResultOf(decode, [Data(a)] + ([ErrData(b)] + ([Data(c)] + ([Close(code)] + later))))
         == Some(ExecResult(decode(a) + decode(c), decode(b), code))
  {
    FourEvents(a, b, c, code, later, false);
    FourEvents(a, b, c, code, later, true);
    DecodedTwo(decode, a, c);
    DecodedOne(decode, b);
  }

  lemma DecodedOne(decode: Decoder, b: seq<byte>)
    ensures Decoded(decode, [b]) == decode(b)
  {
    var one := [b];
    assert one[..0] == [] && Decoded(decode, one) == Decoded(decode, one[..0]) + decode(b);
  }

  lemma DecodedTwo(decode: Decoder, a: seq<byte>, c: seq<byte>)
    ensures Decoded(decode, [a, c]) == decode(a) + decode(c)
  {
    var two := [a, c];
    assert two[..1] == [a] && Decoded(decode, two) == Decoded(decode, two[..1]) + decode(c);
    DecodedOne(decode, a);
  }
}
