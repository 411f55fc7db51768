/** Marker-delimited command output. Two parsers cut it into sections: the metrics parser with
    a plain object as its buffer, and the system-information parser with a map. */
module Sections {
  import opened Text

  type SectionMap = map<string, seq<string>>

  /** `\w`. */
  predicate IsWordChar(c: char) {
    'a' <= c <= 'z' || 'A' <= c <= 'Z' || '0' <= c <= '9' || c == '_'
  }

  predicate IsWord(s: string) { s != "" && forall c :: c in s ==> IsWordChar(c) }

  /** `/^===(\w+)===$/`: the name of a marker line. */
  function Marker(line: string): Option<string> {
    if |line| > 6 && line[..3] == "===" && line[|line| - 3..] == "===" && IsWord(line[3..|line| - 3])
    then Some(line[3..|line| - 3])
    else None
  }

  function MarkerLine(name: string): string { "===" + name + "===" }

  lemma MarkerOfLine(name: string)
    requires IsWord(name)
    ensures Marker(MarkerLine(name)) == Some(name) && '\n' !in MarkerLine(name)
  {
    var line := MarkerLine(name);
    assert line[3..|line| - 3] == name;
  }

  // ---------------------------------------------------------------- what a section is

  /** Line `i` is the last marker with this name. */
  ghost predicate LastMarker(lines: seq<string>, name: string, i: int) {
    && 0 <= i < |lines| && Marker(lines[i]) == Some(name)
    && forall j :: i < j < |lines| ==> Marker(lines[j]) != Some(name)
  }

  /** `j` is the first marker after `i`, or the end. */
  ghost predicate EndsAt(lines: seq<string>, i: int, j: int) {
    && 0 <= i < j <= |lines| && (j < |lines| ==> Marker(lines[j]).Some?)
    && forall k :: i < k < j ==> Marker(lines[k]).None?
  }

  /** The sections of an output: every name that occurs as a marker, with the lines between the
      last such marker and the next marker of any name. */
  ghost predicate AreSections(lines: seq<string>, m: SectionMap) {
    && (forall name :: name in m ==> exists i :: LastMarker(lines, name, i))
    && (forall i :: 0 <= i < |lines| && Marker(lines[i]).Some? ==> Marker(lines[i]).value in m)
    && (forall name, i, j :: LastMarker(lines, name, i) && EndsAt(lines, i, j) ==>
          name in m && m[name] == lines[i + 1..j])
  }

  lemma {:induction false} EndExists(lines: seq<string>, i: int, from: int) returns (j: int)
    requires 0 <= i < from <= |lines| && forall k :: i < k < from ==> Marker(lines[k]).None?
    ensures EndsAt(lines, i, j)
    decreases |lines| - from
  {
    if from == |lines| || Marker(lines[from]).Some? { j := from; } else { j := EndExists(lines, i, from + 1); }
  }

  /** An output has only one division into sections. */
  lemma SectionsUnique(lines: seq<string>, m: SectionMap, n: SectionMap)
    requires AreSections(lines, m) && AreSections(lines, n)
    ensures m == n
  {
    forall name | name in m || name in n
      ensures name in m && name in n && m[name] == n[name]
    {
      var i :| LastMarker(lines, name, i);
      var j := EndExists(lines, i, i + 1);
    }
  }

  // ---------------------------------------------------------------- one line at a time

  /** The loop state of both parsers: the current section, if any, and the sections so far. */
  datatype State = State(current: string, out: SectionMap)

  function Feed(st: State, line: string): State {
    match Marker(line)
    case Some(name) => State(name, st.out[name := []])
    case None =>
      if st.current != "" && st.current in st.out then
        st.(out := st.out[st.current := st.out[st.current] + [line]])
      else st
  }

  function FeedAll(st: State, lines: seq<string>): State
    decreases |lines|
  {
    if lines == [] then st else Feed(FeedAll(st, lines[..|lines| - 1]), lines[|lines| - 1])
  }

  const NOTHING := State("", map[])

  /** The current section is the one of the last marker. */
  ghost predicate IsCurrent(lines: seq<string>, current: string) {
    if current == "" then forall i :: 0 <= i < |lines| ==> Marker(lines[i]).None?
    else exists i :: LastMarker(lines, current, i) && EndsAt(lines, i, |lines|)
  }

  ghost predicate Good(lines: seq<string>, st: State) {
    AreSections(lines, st.out) && IsCurrent(lines, st.current)
  }

  lemma LastMarkerSnoc(lines: seq<string>, line: string, name: string, i: int)
    ensures LastMarker(lines + [line], name, i) <==>
            if Marker(line) == Some(name) then i == |lines| else LastMarker(lines, name, i)
  {
    var longer := lines + [line];
    assert longer[|lines|] == line;
    if Marker(line) != Some(name) && LastMarker(longer, name, i) {
      assert forall j :: i < j < |lines| ==> longer[j] == lines[j];
    }
  }

  lemma EndsAtSnoc(lines: seq<string>, line: string, i: int, j: int)
    requires EndsAt(lines + [line], i, j)
    ensures i < |lines| && j <= |lines| ==> EndsAt(lines, i, j)
    ensures i < |lines| && j > |lines| ==> EndsAt(lines, i, |lines|) && Marker(line).None?
  {
    var longer := lines + [line];
    assert longer[|lines|] == line;
    assert forall k :: 0 <= k < |lines| ==> longer[k] == lines[k];
  }

  /** A new marker begins an empty section and ends the one before. */
  lemma FeedMarker(lines: seq<string>, st: State, line: string, name: string)
    requires Good(lines, st) && Marker(line) == Some(name)
    ensures Good(lines + [line], Feed(st, line))
  {
    var longer, st' := lines + [line], Feed(st, line);
    assert longer[|lines|] == line;
    LastMarkerSnoc(lines, line, name, |lines|);
    forall n | n in st'.out ensures exists i :: LastMarker(longer, n, i) {
      if n != name {
        var i :| LastMarker(lines, n, i);
        LastMarkerSnoc(lines, line, n, i);
      }
    }
    forall n, i, j | LastMarker(longer, n, i) && EndsAt(longer, i, j)
      ensures n in st'.out && st'.out[n] == longer[i + 1..j]
    {
      LastMarkerSnoc(lines, line, n, i);
      EndsAtSnoc(lines, line, i, j);
      if n != name {
        assert longer[i + 1..j] == lines[i + 1..j];
      }
    }
    assert EndsAt(longer, |lines|, |longer|);
  }

  /** What the division of `lines` becomes when a line without a marker follows. */
  lemma SectionGrows(lines: seq<string>, m: SectionMap, line: string, current: string, last: int, n: string, i: int, j: int)
    requires AreSections(lines, m) && Marker(line).None?
    requires LastMarker(lines, current, last) && EndsAt(lines, last, |lines|)
    requires LastMarker(lines + [line], n, i) && EndsAt(lines + [line], i, j)
    ensures n in m && current in m
    ensures (lines + [line])[i + 1..j] == if n == current then m[n] + [line] else m[n]
  {
    var longer := lines + [line];
    assert longer[|lines|] == line;
    LastMarkerSnoc(lines, line, n, i);
    EndsAtSnoc(lines, line, i, j);
    if j > |lines| {
      assert i == last;
      assert longer[i + 1..j] == lines[i + 1..] + [line];
      assert lines[i + 1..] == lines[i + 1..|lines|];
    } else {
      assert j < |lines|;
      assert longer[i + 1..j] == lines[i + 1..j];
    }
  }

  /** Another line goes to the current section, if there is one. */
  lemma FeedLine(lines: seq<string>, st: State, line: string)
    requires Good(lines, st) && Marker(line).None?
    ensures Good(lines + [line], Feed(st, line))
  {
    if st.current == "" {
      NoMarkers(lines, line, st.out);
    } else {
      var last :| LastMarker(lines, st.current, last) && EndsAt(lines, last, |lines|);
      FeedCurrent(lines, st, line, last);
    }
  }

  lemma FeedCurrent(lines: seq<string>, st: State, line: string, last: int)
    requires AreSections(lines, st.out) && Marker(line).None? && st.current != ""
    requires LastMarker(lines, st.current, last) && EndsAt(lines, last, |lines|)
    ensures Good(lines + [line], Feed(st, line))
  {
    var longer, st' := lines + [line], Feed(st, line);
    assert longer[|lines|] == line;
    forall n | n in st'.out ensures exists i :: LastMarker(longer, n, i) {
      var i :| LastMarker(lines, n, i);
      LastMarkerSnoc(lines, line, n, i);
    }
    forall n, i, j | LastMarker(longer, n, i) && EndsAt(longer, i, j)
      ensures n in st'.out && st'.out[n] == longer[i + 1..j]
    {
      SectionGrows(lines, st.out, line, st.current, last, n, i, j);
    }
    LastMarkerSnoc(lines, line, st.current, last);
    assert EndsAt(longer, last, |longer|);
  }

  lemma NoMarkers(lines: seq<string>, line: string, m: SectionMap)
    requires AreSections(lines, m) && Marker(line).None? && forall i :: 0 <= i < |lines| ==> Marker(lines[i]).None?
    ensures AreSections(lines + [line], m) && m == map[]
  {
    assert forall name, i :: !LastMarker(lines, name, i);
    assert forall name :: name !in m;
  }

  lemma {:induction false} FeedAllGood(lines: seq<string>)
    ensures Good(lines, FeedAll(NOTHING, lines))
    decreases |lines|
  {
    if lines != [] {
      var front, line := lines[..|lines| - 1], lines[|lines| - 1];
      FeedAllGood(front);
      assert lines == front + [line];
      if Marker(line).Some? {
        FeedMarker(front, FeedAll(NOTHING, front), line, Marker(line).value);
      } else {
        FeedLine(front, FeedAll(NOTHING, front), line);
      }
    }
  }

  // ---------------------------------------------------------------- the two parsers

  /** `sectionsOf`. */
  method SectionsOf(stdout: string) returns (out: SectionMap)
    ensures AreSections(Split(stdout, '\n'), out)
  {
    var lines := Split(stdout, '\n');
    out := map[];
    var current := "";
    for n := 0 to |lines|
      invariant State(current, out) == FeedAll(NOTHING, lines[..n])
      invariant current != "" ==> current in out
    {
      assert lines[..n + 1][..n] == lines[..n];
      match Marker(lines[n])
      case Some(name) =>
        current := name;
        out := out[current := []];
      case None =>
        if current != "" {
          out := out[current := out[current] + [lines[n]]];
        }
    }
    assert lines[..|lines|] == lines;
    FeedAllGood(lines);
  }

  function Joined(m: SectionMap): map<string, string> {
    map name | name in m :: Join(m[name], "\n")
  }

  /** The name that is not a key of a plain object: assigning to it sets the prototype. */
  const PROTO := "__proto__"

  /** One line, as the entries of the object see it. */
  lemma FeedEntries(st: State, line: string)
    ensures var rest := st.out - {PROTO};
            Feed(st, line).out - {PROTO} ==
              if Marker(line).Some? then
                if Marker(line).value == PROTO then rest else rest[Marker(line).value := []]
              else if st.current == "" || st.current == PROTO || st.current !in st.out then rest
              else rest[st.current := st.out[st.current] + [line]]
  {}

  /** The buffer loop of `parseSystemMetrics`. The buffer is a plain object: what is stored
      under `__proto__` goes to its prototype and does not come back among its entries. */
  method MetricsSections(stdout: string) returns (sections: map<string, string>)
    ensures forall m :: AreSections(Split(stdout, '\n'), m) ==> sections == Joined(m - {PROTO})
  {
    var lines := Split(stdout, '\n');
    var current := "";
    var buffer: SectionMap := map[];
    var prototype: seq<string> := [];
    ghost var st := NOTHING;
    for n := 0 to |lines|
      invariant st == FeedAll(NOTHING, lines[..n]) && st.current == current
      invariant buffer == st.out - {PROTO}
      invariant PROTO in st.out ==> prototype == st.out[PROTO]
      invariant current != "" ==> current in st.out
    {
      assert lines[..n + 1][..n] == lines[..n];
      FeedEntries(st, lines[n]);
      st := Feed(st, lines[n]);
      match Marker(lines[n])
      case Some(name) =>
        current := name;
        if current == PROTO {
          prototype := [];
        } else {
          buffer := buffer[current := []];
        }
      case None =>
        if current == PROTO {
          prototype := prototype + [lines[n]];
        } else if current != "" {
          buffer := buffer[current := (if current in buffer then buffer[current] else []) + [lines[n]]];
        }
    }
    assert lines[..|lines|] == lines;
    FeedAllGood(lines);
    sections := Joined(buffer);
    forall m | AreSections(lines, m) ensures sections == Joined(m - {PROTO}) {
      SectionsUnique(lines, m, st.out);
    }
  }

  ghost predicate HasMarker(lines: seq<string>, name: string) {
    exists i :: 0 <= i < |lines| && Marker(lines[i]) == Some(name)
  }

  /** The two parsers agree if and only if no marker is named `__proto__`. */
  lemma SplittersAgree(stdout: string, fromMap: SectionMap, fromObject: map<string, string>)
    requires AreSections(Split(stdout, '\n'), fromMap)
    requires forall m :: AreSections(Split(stdout, '\n'), m) ==> fromObject == Joined(m - {PROTO})
    ensures fromObject == Joined(fromMap) <==> !HasMarker(Split(stdout, '\n'), PROTO)
  {
    var lines := Split(stdout, '\n');
    assert fromObject == Joined(fromMap - {PROTO});
    if PROTO in fromMap {
      var i :| LastMarker(lines, PROTO, i);
      assert Marker(lines[i]) == Some(PROTO);
      assert PROTO in Joined(fromMap) && PROTO !in Joined(fromMap - {PROTO});
    } else {
      assert fromMap - {PROTO} == fromMap;
    }
  }

  // ---------------------------------------------------------------- printing

  datatype Section = Section(name: string, body: seq<string>)

  function PrintLines(sections: seq<Section>): seq<string> {
    if sections == [] then []
    else PrintLines(sections[..|sections| - 1])
         + [MarkerLine(sections[|sections| - 1].name)] + sections[|sections| - 1].body
  }

  predicate PlainLine(line: string) { Marker(line).None? && '\n' !in line }

  ghost predicate Printable(sections: seq<Section>) {
    && (forall i :: 0 <= i < |sections| ==> IsWord(sections[i].name))
    && (forall i, k :: 0 <= i < |sections| && 0 <= k < |sections[i].body| ==> PlainLine(sections[i].body[k]))
    && (forall i, j :: 0 <= i < j < |sections| ==> sections[i].name != sections[j].name)
  }

  lemma {:induction false} FeedBody(st: State, lines: seq<string>, body: seq<string>)
    requires st == FeedAll(NOTHING, lines) && st.current != "" && st.current in st.out
    requires forall k :: 0 <= k < |body| ==> Marker(body[k]).None?
    ensures FeedAll(NOTHING, lines + body) == st.(out := st.out[st.current := st.out[st.current] + body])
    decreases |body|
  {
    if body == [] {
      assert lines + body == lines && st.out[st.current] + body == st.out[st.current];
      assert st.out[st.current := st.out[st.current]] == st.out;
    } else {
      var front, line := body[..|body| - 1], body[|body| - 1];
      FeedBody(st, lines, front);
      assert (lines + body)[..|lines + body| - 1] == lines + front;
      assert st.out[st.current] + front + [line] == st.out[st.current] + body;
    }
  }

  lemma {:induction false} FeedJunk(junk: seq<string>)
    requires forall k :: 0 <= k < |junk| ==> Marker(junk[k]).None?
    ensures FeedAll(NOTHING, junk) == NOTHING
    decreases |junk|
  {
    if junk != [] { FeedJunk(junk[..|junk| - 1]); }
  }

  function BodiesOf(sections: seq<Section>): SectionMap {
    if sections == [] then map[]
    else BodiesOf(sections[..|sections| - 1])[sections[|sections| - 1].name := sections[|sections| - 1].body]
  }

  lemma FeedSection(lines: seq<string>, section: Section)
    requires IsWord(section.name) && forall k :: 0 <= k < |section.body| ==> Marker(section.body[k]).None?
    ensures FeedAll(NOTHING, lines + [MarkerLine(section.name)] + section.body).out
         == FeedAll(NOTHING, lines).out[section.name := section.body]
  {
    var mark, before := MarkerLine(section.name), FeedAll(NOTHING, lines);
    var st := State(section.name, before.out[section.name := []]);
    assert FeedAll(NOTHING, lines + [mark]) == st by {
      MarkerOfLine(section.name);
      assert (lines + [mark])[..|lines|] == lines;
    }
    FeedBody(st, lines + [mark], section.body);
    assert [] + section.body == section.body;
  }

  lemma {:induction false} FeedPrinted(junk: seq<string>, sections: seq<Section>)
    requires Printable(sections) && forall k :: 0 <= k < |junk| ==> PlainLine(junk[k])
    ensures FeedAll(NOTHING, junk + PrintLines(sections)).out == BodiesOf(sections)
    decreases |sections|
  {
    if sections == [] {
      assert junk + PrintLines(sections) == junk;
      FeedJunk(junk);
    } else {
      var front, last := sections[..|sections| - 1], sections[|sections| - 1];
      FeedPrinted(junk, front);
      assert forall k :: 0 <= k < |last.body| ==> PlainLine(last.body[k]);
      FeedSection(junk + PrintLines(front), last);
      assert junk + PrintLines(sections) == junk + PrintLines(front) + [MarkerLine(last.name)] + last.body;
    }
  }

  lemma {:induction false} BodiesHold(sections: seq<Section>)
    requires Printable(sections)
    ensures forall i :: 0 <= i < |sections| ==>
              sections[i].name in BodiesOf(sections) && BodiesOf(sections)[sections[i].name] == sections[i].body
    ensures forall name :: name in BodiesOf(sections) ==> exists i :: 0 <= i < |sections| && sections[i].name == name
    decreases |sections|
  {
    if sections != [] { BodiesHold(sections[..|sections| - 1]); }
  }

  lemma {:induction false} PrintedPlain(sections: seq<Section>)
    requires Printable(sections)
    ensures forall line :: line in PrintLines(sections) ==> '\n' !in line
    decreases |sections|
  {
    if sections != [] {
      PrintedPlain(sections[..|sections| - 1]);
      MarkerOfLine(sections[|sections| - 1].name);
    }
  }

  /** Sections with distinct names and marker-free bodies, printed after any junk, are read back
      as they were: each name with its body, and no other name. */
  lemma SectionsRoundTrip(junk: seq<string>, sections: seq<Section>, m: SectionMap)
    requires Printable(sections) && (forall k :: 0 <= k < |junk| ==> PlainLine(junk[k]))
    requires junk + PrintLines(sections) != []
    requires AreSections(Split(Join(junk + PrintLines(sections), "\n"), '\n'), m)
    ensures forall i :: 0 <= i < |sections| ==> sections[i].name in m && m[sections[i].name] == sections[i].body
    ensures forall name :: name in m ==> exists i :: 0 <= i < |sections| && sections[i].name == name
  {
    var lines := junk + PrintLines(sections);
    PrintedPlain(sections);
    SplitJoin(lines, '\n');
    FeedPrinted(junk, sections);
    FeedAllGood(lines);
    SectionsUnique(lines, m, FeedAll(NOTHING, lines).out);
    BodiesHold(sections);
  }

  // ---------------------------------------------------------------- marker lines

  /** Digits, capitals, the underscore, small letters: as codes of characters. */
  predicate InWordCodes(c: char) {
    var code := c as int;
    48 <= code <= 57 || 65 <= code <= 90 || code == 95 || 97 <= code <= 122
  }

  /** A line is a marker of a name if and only if it is that name between two times three equals
      signs, and the name is one or more letters, digits and underscores. */
  lemma MarkerExact(line: string, name: string)
    ensures Marker(line) == Some(name) <==> line == "===" + name + "===" && name != "" && forall c :: c in name ==> InWordCodes(c)
  {
    if line == "===" + name + "===" {
      assert line[..3] == "===" && line[|line| - 3..] == "===" && line[3..|line| - 3] == name;
    }
    if Marker(line) == Some(name) {
      assert line == line[..3] + line[3..|line| - 3] + line[|line| - 3..];
    }
  }

  /** The metrics parser's text of a section holds its lines, one to a line. */
  lemma JoinedLines(stdout: string, m: SectionMap, name: string)
    requires AreSections(Split(stdout, '\n'), m) && name in m && m[name] != []
    ensures Split(Joined(m)[name], '\n') == m[name]
  {
    var lines := Split(stdout, '\n');
    var i :| LastMarker(lines, name, i);
    var j := EndExists(lines, i, i + 1);
    SplitPartsFree(stdout, '\n');
    assert forall line :: line in lines[i + 1..j] ==> line in lines;
    SplitJoin(m[name], '\n');
  }
}
