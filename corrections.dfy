/**
 * Two places where the session parser does not do what it evidently means to
 * do. For each: the behaviour as written (the definitions of `Protocol`, which
 * the session model follows) with an input that shows the discrepancy, and a
 * corrected definition with the intended property proved about it.
 */
module Corrections {
  import opened Wrappers
  import opened Strings
  import opened Protocol

  // ---------------------------------------------------------------------------
  // 1. A handshake value that holds a colon
  //
  // Destructuring the pieces of a split at every colon keeps only the text
  // between the first and the second colon, so a value such as a URL loses
  // everything from its own first colon on.

  /** As written: a value that holds a colon keeps only the text before it,
      so `agi_request: agi://host/script` gives `agi`. */
  lemma ColonValueTruncated(name: string, scheme: string, rest: string)
    requires ':' !in name && ':' !in scheme && IsTrimmed(scheme)
    ensures VariableEntry("agi_" + name + ": " + scheme + ":" + rest) == (name, scheme)
  {
    var value := scheme + ":" + rest;
    var line := "agi_" + name + ": " + value;
    assert line == "agi_" + name + ": " + scheme + ":" + rest;
    var c := |name| + 4;
    assert IndexOf(line, ':') == c && line[4..c] == name by {
      EntryLine(name, value);
    }
    var after := line[c + 1..];
    assert Trim(after[..IndexOf(after, ':')]) == scheme by {
      assert after == " " + value;
      IndexOfAt(after, ':', |scheme| + 1);
      assert after[..|scheme| + 1] == " " + scheme;
      TrimLeading(" ", scheme);
    }
    EntryFromColons(line, c, name, scheme);
  }

  /** The line of the example: the value `agi://host/script` is read as `agi`. */
  lemma ColonValueExample(line: string)
    requires line == "agi_request: agi://host/script"
    ensures VariableEntry(line) == ("request", "agi")
  {
    RequestLine();
    ColonValueTruncated("request", "agi", "//host/script");
  }

  /** Corrected, the same line keeps its whole value. */
  lemma ColonValueFixedExample(line: string)
    requires line == "agi_request: agi://host/script"
    ensures VariableEntryFixed(line) == ("request", "agi://host/script")
  {
    RequestLine();
    VariableEntryFixedReadsBack("request", "agi://host/script");
  }

  /** The pieces of the line of the examples. */
  lemma RequestLine()
    ensures "agi_request: agi://host/script" == "agi_" + "request" + ": " + "agi" + ":" + "//host/script"
    ensures "agi_request: agi://host/script" == "agi_" + "request" + ": " + "agi://host/script"
    ensures ':' !in "request" && ':' !in "agi" && IsTrimmed("agi") && IsTrimmed("agi://host/script")
  {
  }

  /** As written, an entry reads back when its value holds no colon. */
  lemma VariableEntryReadsBack(name: string, value: string)
    requires ':' !in name && ':' !in value && IsTrimmed(value)
    ensures VariableEntry("agi_" + name + ": " + value) == (name, value)
  {
    var line := "agi_" + name + ": " + value;
    var c := |name| + 4;
    assert IndexOf(line, ':') == c && line[4..c] == name by {
      EntryLine(name, value);
    }
    var after := line[c + 1..];
    assert Trim(after[..IndexOf(after, ':')]) == value by {
      assert after == " " + value;
      IndexOfAt(after, ':', |after|);
      assert after[..|after|] == " " + value;
      TrimLeading(" ", value);
    }
    EntryFromColons(line, c, name, value);
  }

  /**
   * Corrected: the name is the text before the first colon without its first
   * four characters, and the value is everything after that colon, trimmed.
   */
  function VariableEntryFixed(line: string): (e: (string, string))
    ensures ':' !in e.0 && IsTrimmed(e.1)
  {
    var c := IndexOf(line, ':');
    (if c >= 4 then line[4..c] else "", if c < |line| then Trim(line[c + 1..]) else "")
  }

  /** Corrected: every entry reads back, whatever its value holds. */
  lemma VariableEntryFixedReadsBack(name: string, value: string)
    requires ':' !in name && IsTrimmed(value)
    ensures VariableEntryFixed("agi_" + name + ": " + value) == (name, value)
  {
    var line := "agi_" + name + ": " + value;
    EntryLine(name, value);
    assert line[|name| + 5..] == " " + value;
    TrimLeading(" ", value);
  }

  /** The correction changes nothing for a line with one colon. */
  lemma VariableEntryFixedAgrees(name: string, value: string)
    requires ':' !in name && ':' !in value
    ensures VariableEntryFixed(name + ":" + value) == VariableEntry(name + ":" + value)
  {
    var line := name + ":" + value;
    assert Split(line, ':') == [name, value] by {
      assert name + [':'] + value == line;
      SplitAtSeparator(name, value, ':');
      SplitNoSeparator(name, ':');
      SplitNoSeparator(value, ':');
    }
    assert IndexOf(line, ':') == |name| by {
      assert line[..|name|] == name && line[|name|] == ':';
      IndexOfAt(line, ':', |name|);
    }
    assert line[|name| + 1..] == value;
    assert |name| >= 4 ==> line[4..|name|] == name[4..];
  }

  /** Nor for a line without a colon. */
  lemma VariableEntryFixedAgreesBare(line: string)
    requires ':' !in line
    ensures VariableEntryFixed(line) == VariableEntry(line)
  {
    assert Split(line, ':') == [line] by {
      SplitNoSeparator(line, ':');
    }
    assert IndexOf(line, ':') == |line| by {
      IndexOfAt(line, ':', |line|);
    }
    assert Trim("") == "";
    assert |line| >= 4 ==> line[4..|line|] == line[4..];
  }

  /** Where the colon of `agi_<name>: <value>` is. */
  lemma EntryLine(name: string, value: string)
    requires ':' !in name
    ensures var line := "agi_" + name + ": " + value;
      IndexOf(line, ':') == |name| + 4 && line[4..|name| + 4] == name
  {
    var line := "agi_" + name + ": " + value;
    assert line[..|name| + 4] == "agi_" + name;
    assert line[|name| + 4] == ':';
    IndexOfAt(line, ':', |name| + 4);
  }

  /** The entry of a line whose first colon is at `c`, past the prefix. */
  lemma EntryFromColons(line: string, c: nat, name: string, value: string)
    requires 4 <= c < |line| && IndexOf(line, ':') == c && line[4..c] == name
    requires var after := line[c + 1..]; Trim(after[..IndexOf(after, ':')]) == value
    ensures VariableEntry(line) == (name, value)
  {
    var parts := Split(line, ':');
    SplitFirstTwo(line, ':');
    assert parts[0][4..] == name by {
      assert parts[0] == line[..c];
    }
    assert Trim(parts[1]) == value;
  }

  /** Leading whitespace before a trimmed string is all that `trim` removes. */
  lemma TrimLeading(w: string, s: string)
    requires AllWhitespace(w) && IsTrimmed(s)
    ensures Trim(w + s) == s
  {
    TrimStartPadded(w, s);
  }

  lemma {:induction false} TrimStartPadded(w: string, s: string)
    requires AllWhitespace(w) && (s == [] || !IsWhitespace(s[0]))
    ensures TrimStart(w + s) == s
    decreases |w|
  {
    if w == [] {
      assert w + s == s;
    } else {
      assert (w + s)[0] == w[0];
      assert (w + s)[1..] == w[1..] + s;
      TrimStartPadded(w[1..], s);
    }
  }

  // ---------------------------------------------------------------------------
  // 2. A response line cut in two by the stream's chunking
  //
  // `read` hands the whole buffer to `readResponse` as soon as it holds a
  // newline and then empties it, so the unterminated piece after the last
  // newline is read as a line of its own instead of waiting for its end.

  /** A session past the handshake with nothing buffered and nothing pending. */
  predicate Idle(s: Session)
  {
    s.state == Waiting && s.buffer == "" && s.pending == None
  }

  /**
   * As written: after a response line `first`, a line `cut + rest` that arrives
   * split after `cut` is read as the two lines `cut` and `rest`; when neither
   * half matches on its own, the response is lost and two hangups are emitted
   * instead. Sent in one chunk, the same input gives both responses.
   */
  lemma CutResponseLost(s: Session, first: string, cut: string, rest: string)
    requires Idle(s)
    requires '\n' !in first && '\n' !in cut && '\n' !in rest && cut != ""
    requires ParseLine(first).Some? && ParseLine(cut + rest).Some?
    requires ParseLine(cut).None? && ParseLine(rest).None?
    ensures AfterRead(AfterRead(s, first + "\n" + cut), rest + "\n").events
      == s.events + [Responded(ParseLine(first).value), Hangup, Hangup]
    ensures AfterRead(s, first + "\n" + cut + rest + "\n").events
      == s.events + [Responded(ParseLine(first).value), Responded(ParseLine(cut + rest).value)]
  {
    assert rest != "" by {
      assert rest == "" ==> cut + rest == cut;
    }
    CutChunks(s, first, cut, rest);
    WholeChunk(first, cut, rest);
    ReadWhole(s, first, cut + rest);
  }

  lemma WholeChunk(first: string, cut: string, rest: string)
    ensures first + "\n" + cut + rest + "\n" == first + "\n" + (cut + rest) + "\n"
  {
  }

  /** The line and its cut-off start, then the rest of the second line. */
  lemma CutChunks(s: Session, first: string, cut: string, rest: string)
    requires Idle(s)
    requires '\n' !in first && '\n' !in cut && '\n' !in rest && cut != "" && rest != ""
    requires ParseLine(first).Some? && ParseLine(cut).None? && ParseLine(rest).None?
    ensures AfterRead(AfterRead(s, first + "\n" + cut), rest + "\n").events
      == s.events + [Responded(ParseLine(first).value), Hangup, Hangup]
  {
    var s1 := s.(events := s.events + [Responded(ParseLine(first).value), Hangup]);
    FirstChunk(s, first, cut);
    LastChunk(s1, rest);
  }

  lemma FirstChunk(s: Session, first: string, cut: string)
    requires Idle(s) && '\n' !in first && '\n' !in cut && cut != ""
    requires ParseLine(first).Some? && ParseLine(cut).None?
    ensures AfterRead(s, first + "\n" + cut) == s.(events := s.events + [Responded(ParseLine(first).value), Hangup])
  {
    ReadCut(s, first, cut);
    ReadTwo(None, first, cut);
  }

  lemma LastChunk(s: Session, rest: string)
    requires Idle(s) && '\n' !in rest && rest != "" && ParseLine(rest).None?
    ensures AfterRead(s, rest + "\n").events == s.events + [Hangup]
  {
    ReadCut(s, rest, "");
    ReadTwo(None, rest, "");
    assert rest + "\n" + "" == rest + "\n";
  }

  /** A chunk of one line and the start of the next: the start is read as a line. */
  lemma ReadCut(s: Session, line: string, cut: string)
    requires Idle(s) && '\n' !in line && '\n' !in cut
    ensures var st := LinesStep(None, [line, cut]);
      AfterRead(s, line + "\n" + cut) == s.(pending := st.pending, events := s.events + st.events)
  {
    var data := line + "\n" + cut;
    assert s.buffer + data == data;
    assert Split(data, '\n') == [line, cut] by { CutSplits(line, cut); }
    ReadWaiting(s, data, [line, cut]);
  }

  /** Two whole lines in one chunk. */
  lemma ReadWhole(s: Session, a: string, b: string)
    requires Idle(s) && '\n' !in a && '\n' !in b
    requires ParseLine(a).Some? && ParseLine(b).Some?
    ensures AfterRead(s, a + "\n" + b + "\n").events == s.events + [Responded(ParseLine(a).value), Responded(ParseLine(b).value)]
  {
    var data := a + "\n" + b + "\n";
    assert s.buffer + data == data;
    assert Split(data, '\n') == [a, b, ""] by { WholeSplits(a, b); }
    ReadWaiting(s, data, [a, b, ""]);
    ReadThree(a, b);
  }

  /** `read` past the handshake, when the buffer holds a newline. */
  lemma ReadWaiting(s: Session, data: string, lines: seq<string>)
    requires s.state == Waiting && Split(s.buffer + data, '\n') == lines && |lines| >= 2
    ensures var st := LinesStep(s.pending, lines);
      AfterRead(s, data) == s.(pending := st.pending, events := s.events + st.events, buffer := "")
  {
    Unterminated(s.buffer + data);
  }

  /** Two lines processed one after the other. */
  lemma ReadTwo(pending: Option<CommandId>, a: string, b: string)
    ensures var x := LineStep(pending, a); var y := LineStep(x.pending, b);
      LinesStep(pending, [a, b]) == Step(y.pending, x.events + y.events)
  {
    TwoLines(a, b);
    var x := LineStep(pending, a);
    assert LinesStep(pending, []) == Step(pending, []) by {
      assert Readings([]) == [];
    }
    assert LinesStep(pending, [a]) == x by {
      LinesStepSnoc(pending, [], a);
      assert [] + x.events == x.events;
    }
    LinesStepSnoc(pending, [a], b);
  }

  lemma TwoLines(a: string, b: string)
    ensures [] + [a] == [a] && [a] + [b] == [a, b]
  {
  }

  /** Two response lines and the empty piece after the final newline. */
  lemma ReadThree(a: string, b: string)
    requires ParseLine(a).Some? && ParseLine(b).Some?
    ensures LinesStep(None, [a, b, ""]).events == [Responded(ParseLine(a).value), Responded(ParseLine(b).value)]
  {
    ThreeLines(a, b);
    EmptyPieceSkipped(None, [a, b]);
    ReadTwoResponses(a, b);
  }

  /** An empty piece, such as the one after a final newline, changes nothing. */
  lemma EmptyPieceSkipped(pending: Option<CommandId>, lines: seq<string>)
    ensures LinesStep(pending, lines + [""]) == LinesStep(pending, lines)
  {
    var prev := LinesStep(pending, lines);
    LinesStepSnoc(pending, lines, "");
    assert LineStep(prev.pending, "") == Step(prev.pending, []);
    assert prev.events + [] == prev.events;
  }

  /** Two response lines with nothing pending emit their two responses. */
  lemma ReadTwoResponses(a: string, b: string)
    requires ParseLine(a).Some? && ParseLine(b).Some?
    ensures LinesStep(None, [a, b]).events == [Responded(ParseLine(a).value), Responded(ParseLine(b).value)]
  {
    var ea, eb := Responded(ParseLine(a).value), Responded(ParseLine(b).value);
    ReadTwo(None, a, b);
    assert LineStep(None, a) == Step(None, [ea]);
    assert LineStep(None, b) == Step(None, [eb]);
    assert [ea] + [eb] == [ea, eb];
  }

  lemma ThreeLines(a: string, b: string)
    ensures [a, b] + [""] == [a, b, ""]
  {
  }

  lemma CutSplits(a: string, b: string)
    requires '\n' !in a && '\n' !in b
    ensures Split(a + "\n" + b, '\n') == [a, b]
  {
    SplitAtSeparator(a, b, '\n');
    assert a + ['\n'] + b == a + "\n" + b;
    SplitNoSeparator(a, '\n');
    SplitNoSeparator(b, '\n');
  }

  lemma WholeSplits(a: string, b: string)
    requires '\n' !in a && '\n' !in b
    ensures Split(a + "\n" + b + "\n", '\n') == [a, b, ""]
  {
    CutSplits(b, "");
    assert b + "\n" + "" == b + "\n";
    SplitAtSeparator(a, b + "\n", '\n');
    assert a + ['\n'] + (b + "\n") == a + "\n" + b + "\n";
    SplitNoSeparator(a, '\n');
  }

  /** `200 result=1`, then `200 result=0` arriving as `2` and `00 result=0`: the
      second response is lost and two hangups are emitted in its place. */
  lemma CutResponseExample(s: Session, first: string, cut: string, rest: string)
    requires Idle(s) && first == "200 result=1" && cut == "2" && rest == "00 result=0"
    ensures AfterRead(AfterRead(s, first + "\n" + cut), rest + "\n").events
      == s.events + [Responded(Response(200, "1", None)), Hangup, Hangup]
    ensures AfterRead(s, first + "\n" + cut + rest + "\n").events
      == s.events + [Responded(Response(200, "1", None)), Responded(Response(200, "0", None))]
  {
    ParseExampleResultOne(first);
    CutHalves(cut, rest);
    NoNewlines(first, cut, rest);
    ParseExampleResult(cut + rest);
    CutResponseLost(s, first, cut, rest);
  }

  lemma NoNewlines(first: string, cut: string, rest: string)
    requires first == "200 result=1" && cut == "2" && rest == "00 result=0"
    ensures '\n' !in first && '\n' !in cut && '\n' !in rest && cut != ""
  {
  }

  /** Neither half of `200 result=0` cut after its first character is a response. */
  lemma CutHalves(cut: string, rest: string)
    requires cut == "2" && rest == "00 result=0"
    ensures cut + rest == "200 result=0"
    ensures ParseLine(cut).None? && ParseLine(rest).None?
  {
    assert !IsDigit(rest[2]);
  }

  lemma ParseExampleResultOne(line: string)
    requires line == "200 result=1"
    ensures ParseLine(line) == Some(Response(200, "1", None))
  {
    var result := "1";
    assert line == CodeDigits(200) + ResultMarker + result by { CodeTwoHundred(); }
    ParseBareResult(200, result);
  }

  /**
   * Corrected `read` once the handshake is done: only the lines that end in a
   * newline are processed, and the piece after the last newline stays buffered
   * for the next chunk. Without a newline nothing is read.
   */
  function AfterReadKeepingTail(s: Session, data: string): (t: Session)
    ensures t.state == s.state && t.variables == s.variables
    ensures '\n' !in t.buffer
    ensures '\n' !in s.buffer + data ==> t == s.(buffer := s.buffer + data)
  {
    Unterminated(s.buffer + data);
    KeepTail(s, Split(s.buffer + data, '\n'))
  }

  /** The pieces before the last processed as lines; the last one buffered. */
  function KeepTail(s: Session, parts: seq<string>): Session
    requires |parts| >= 1
  {
    var st := LinesStep(s.pending, parts[..|parts| - 1]);
    s.(pending := st.pending, events := s.events + st.events, buffer := parts[|parts| - 1])
  }

  /** Input without a newline is one unterminated piece. */
  lemma Unterminated(x: string)
    ensures '\n' !in x ==> Split(x, '\n') == [x]
  {
    if '\n' !in x {
      SplitNoSeparator(x, '\n');
    }
  }

  /** Corrected: how the input is cut into chunks does not change what is read. */
  lemma ChunkingIrrelevant(s: Session, a: string, b: string)
    ensures AfterReadKeepingTail(AfterReadKeepingTail(s, a), b) == AfterReadKeepingTail(s, a + b)
  {
    var pa := Split(s.buffer + a, '\n');
    var head, tail := pa[..|pa| - 1], pa[|pa| - 1];
    var q := Split(tail + b, '\n');
    assert pa == head + [tail];
    var t := AfterReadKeepingTail(s, a);
    assert t == KeepTail(s, head + [tail]) by { KeepingTailUnfold(s, a); }
    assert AfterReadKeepingTail(t, b) == KeepTail(t, q) by { KeepingTailUnfold(t, b); }
    assert AfterReadKeepingTail(s, a + b) == KeepTail(s, head + q) by {
      KeepingTailUnfold(s, a + b);
      ChunkSplits(s.buffer, a, b);
    }
    KeepTailAppend(s, head, tail, q);
  }

  lemma KeepingTailUnfold(s: Session, data: string)
    ensures AfterReadKeepingTail(s, data) == KeepTail(s, Split(s.buffer + data, '\n'))
  {
  }

  /** The pieces of the buffer and two chunks: those of the buffer and the first
      chunk but the last, then the last continued by the second chunk. */
  lemma ChunkSplits(buffer: string, a: string, b: string)
    ensures var pa := Split(buffer + a, '\n');
      Split(buffer + (a + b), '\n') == pa[..|pa| - 1] + Split(pa[|pa| - 1] + b, '\n')
  {
    assert buffer + (a + b) == buffer + a + b;
    SplitAppend(buffer + a, b, '\n');
  }

  /** Buffering a piece and then continuing it is processing the pieces in one go. */
  lemma KeepTailAppend(s: Session, head: seq<string>, tail: string, q: seq<string>)
    requires |q| >= 1
    ensures KeepTail(KeepTail(s, head + [tail]), q) == KeepTail(s, head + q)
  {
    var first := LinesStep(s.pending, head);
    var second := LinesStep(first.pending, q[..|q| - 1]);
    var mid := s.(pending := first.pending, events := s.events + first.events, buffer := tail);
    KeepTailSnoc(s, head, tail);
    KeepTailJoined(s, head, q);
    EventsAssoc(s.events, first.events, second.events);
    assert KeepTail(mid, q)
      == s.(pending := second.pending, events := s.events + first.events + second.events, buffer := q[|q| - 1]);
  }

  lemma EventsAssoc(a: seq<Event>, b: seq<Event>, c: seq<Event>)
    ensures a + (b + c) == a + b + c
  {
  }

  lemma KeepTailSnoc(s: Session, head: seq<string>, tail: string)
    ensures var first := LinesStep(s.pending, head);
      KeepTail(s, head + [tail]) == s.(pending := first.pending, events := s.events + first.events, buffer := tail)
  {
    assert (head + [tail])[..|head|] == head;
  }

  lemma KeepTailJoined(s: Session, head: seq<string>, q: seq<string>)
    requires |q| >= 1
    ensures var first := LinesStep(s.pending, head); var second := LinesStep(first.pending, q[..|q| - 1]);
      KeepTail(s, head + q)
        == s.(pending := second.pending, events := s.events + (first.events + second.events), buffer := q[|q| - 1])
  {
    var whole := head + q;
    assert whole[..|whole| - 1] == head + q[..|q| - 1];
    assert whole[|whole| - 1] == q[|q| - 1];
    LinesStepAppend(s.pending, head, q[..|q| - 1]);
  }

  /** Processing two runs of lines one after the other. */
  lemma LinesStepAppend(pending: Option<CommandId>, xs: seq<string>, ys: seq<string>)
    ensures var first := LinesStep(pending, xs); var second := LinesStep(first.pending, ys);
      LinesStep(pending, xs + ys) == Step(second.pending, first.events + second.events)
  {
    assert Readings(xs + ys) == Readings(xs) + Readings(ys);
    ReadingsStepAppend(pending, Readings(xs), Readings(ys));
  }

  lemma {:induction false} ReadingsStepAppend(pending: Option<CommandId>, r1: seq<Reading>, r2: seq<Reading>)
    ensures var first := ReadingsStep(pending, r1); var second := ReadingsStep(first.pending, r2);
      ReadingsStep(pending, r1 + r2) == Step(second.pending, first.events + second.events)
    decreases |r2|
  {
    if r2 == [] {
      assert r1 + r2 == r1;
    } else {
      var init := r2[..|r2| - 1];
      ReadingsStepAppend(pending, r1, init);
      assert (r1 + r2)[..|r1 + r2| - 1] == r1 + init;
      assert (r1 + r2)[|r1 + r2| - 1] == r2[|r2| - 1];
    }
  }

  /** The correction changes nothing when the buffer ends in a newline: the
      piece after it is empty, which `readResponseLine` skips. */
  lemma KeepingTailAgrees(s: Session, data: string)
    requires s.state == Waiting && s.buffer + data != [] && (s.buffer + data)[|s.buffer + data| - 1] == '\n'
    ensures AfterReadKeepingTail(s, data) == AfterRead(s, data)
  {
    var x := s.buffer + data;
    var parts := Split(x, '\n');
    var init := parts[..|parts| - 1];
    EndsEmpty(x);
    assert parts == init + [""];
    ReadWaiting(s, data, parts);
    LinesStepSnoc(s.pending, init, "");
  }

  /** After a final newline comes one empty piece. */
  lemma EndsEmpty(x: string)
    requires x != [] && x[|x| - 1] == '\n'
    ensures var parts := Split(x, '\n'); |parts| >= 2 && parts[|parts| - 1] == ""
  {
    var y := x[..|x| - 1];
    assert x == y + "\n";
    var py := Split(y, '\n');
    var last := py[|py| - 1];
    SplitAppend(y, "\n", '\n');
    CutSplits(last, "");
    assert last + "\n" + "" == last + "\n";
  }
}
