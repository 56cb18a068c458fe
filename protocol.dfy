/**
 * The AGI session protocol as values: how one inbound line is recognised as a
 * response, how a handshake line becomes a variable, what one line and a run of
 * lines do to the pending-command slot and the event log, and what one `read`
 * of a chunk does to the whole session (src/base-context.ts).
 */
module Protocol {
  import opened Wrappers
  import opened Strings

  /** `IResponse`: a three-digit code, the result token, an optional value. */
  datatype Response = Response(code: nat, result: string, value: Option<string>)

  /** The completion handle a command leaves in the pending slot. */
  type CommandId = nat

  /** What the session reports: the emitted events and the invoked callbacks, in order. */
  datatype Event =
    | Variables(vars: map<string, string>)
    | Hangup
    | Responded(response: Response)
    | Resolved(id: CommandId, response: Response)

  // ---------------------------------------------------------------------------
  // Response lines: /^(\d{3})(?: result=)([^(]*)(?:\((.*)\))?/

  const ResultMarker: string := " result="

  /** The part of the grammar that decides whether a line matches at all. */
  predicate HasResponsePrefix(line: string)
  {
    && |line| >= 11
    && IsDigit(line[0]) && IsDigit(line[1]) && IsDigit(line[2])
    && line[3..11] == ResultMarker
  }

  /** The characters the regular-expression `.` does not match. */
  predicate IsLineTerminator(c: char)
  {
    c == '\n' || c == '\r' || c == '\U{2028}' || c == '\U{2029}'
  }

  predicate NoLineTerminator(s: string)
  {
    forall i :: 0 <= i < |s| ==> !IsLineTerminator(s[i])
  }

  function FirstLineTerminator(s: string): (k: nat)
    ensures k <= |s| && NoLineTerminator(s[..k])
    ensures k < |s| ==> IsLineTerminator(s[k])
    decreases |s|
  {
    if s == [] || IsLineTerminator(s[0]) then 0
    else
      var k := 1 + FirstLineTerminator(s[1..]);
      assert s[..k] == [s[0]] + s[1..][..k - 1];
      k
  }

  /** A prefix free of line terminators ends at or before the first one. */
  lemma {:induction false} BeforeFirstLineTerminator(s: string, k: nat)
    requires k <= |s| && NoLineTerminator(s[..k])
    ensures k <= FirstLineTerminator(s)
    decreases k
  {
    if k > 0 {
      assert !IsLineTerminator(s[..k][0]);
      assert s[1..][..k - 1] == s[..k][1..];
      BeforeFirstLineTerminator(s[1..], k - 1);
    }
  }

  /** `\((.*)\)` can end with the `)` at index `k` of the text after the `(`. */
  predicate ClosesAt(s: string, k: int)
  {
    0 <= k < |s| && s[k] == ')' && NoLineTerminator(s[..k])
  }

  /**
   * The value group, given the text after the opening parenthesis: the greedy
   * `(.*)` reaches the last `)` before any line terminator; an empty capture
   * counts as no value (`if (value)`).
   */
  function ParenValue(s: string): (v: Option<string>)
    ensures v.Some? ==> v.value != "" && |v.value| < |s| && s[..|v.value|] == v.value && ClosesAt(s, |v.value|)
    ensures v.Some? ==> forall k :: ClosesAt(s, k) ==> k <= |v.value|
    ensures v.None? ==> forall k :: ClosesAt(s, k) ==> k == 0
  {
    var n := FirstLineTerminator(s);
    var t := s[..n];
    var q := LastIndexOf(t, ')');
    assert forall k :: ClosesAt(s, k) ==> k < n && t[k] == ')' by {
      forall k | ClosesAt(s, k) ensures k < n && t[k] == ')' {
        BeforeFirstLineTerminator(s, k);
      }
    }
    if q <= 0 then None
    else
      assert s[..q] == t[..q];
      Some(t[..q])
  }

  /**
   * The regular-expression match of `readResponseLine`: `code` is the value of
   * the three digits, `result` the text up to the first `(` trimmed, and
   * `value` the parenthesised text when non-empty.
   */
  function ParseLine(line: string): (r: Option<Response>)
    ensures r.Some? <==> HasResponsePrefix(line)
    ensures r.Some? ==> AllDigits(line[..3]) && r.value.code == DigitsValue(line[..3]) && r.value.code < 1000
    ensures r.Some? ==> WellFormed(r.value)
  {
    if !HasResponsePrefix(line) then None
    else
      var rest := line[11..];
      var p := IndexOf(rest, '(');
      var value := ValueAfter(rest, p);
      var digits := line[..3];
      assert AllDigits(digits);
      ThreeDigits(digits);
      Some(Response(DigitsValue(digits), Trim(rest[..p]), value))
  }

  /** The value group, given where the first `(` is (or the end of the text). */
  function ValueAfter(rest: string, p: nat): Option<string>
    requires p <= |rest|
  {
    if p < |rest| then ParenValue(rest[p + 1..]) else None
  }

  /** The responses a line can yield: a code below 1000, a trimmed result
      without `(`, and a non-empty single-line value. */
  predicate WellFormed(r: Response)
  {
    && r.code < 1000
    && '(' !in r.result && IsTrimmed(r.result)
    && (r.value.Some? ==> r.value.value != "" && NoLineTerminator(r.value.value))
  }

  /** The three digits of a code, zero-padded. */
  function CodeDigits(code: nat): string
    requires code < 1000
  {
    [DigitChar(code / 100), DigitChar(code / 10 % 10), DigitChar(code % 10)]
  }

  /** The three digits read back to the code. */
  lemma CodeDigitsValue(code: nat)
    requires code < 1000
    ensures AllDigits(CodeDigits(code)) && DigitsValue(CodeDigits(code)) == code
  {
    var d := CodeDigits(code);
    ThreeDigits(d);
    var h, t, u := code / 100, code / 10 % 10, code % 10;
    assert d[0] as int - '0' as int == h;
    assert d[1] as int - '0' as int == t;
    assert d[2] as int - '0' as int == u;
    assert code / 10 == 10 * h + t;
    assert code == 10 * (code / 10) + u;
  }

  /** The line an AGI peer sends for a response: `DDD result=TOKEN` or `DDD result=TOKEN(VALUE)`. */
  function FormatResponse(r: Response): string
    requires r.code < 1000
  {
    CodeDigits(r.code) + ResultMarker + ResultText(r)
  }

  /** The text after the marker: the result token and the parenthesised value. */
  function ResultText(r: Response): string
  {
    r.result + if r.value.Some? then "(" + r.value.value + ")" else ""
  }

  /** A value followed by its closing parenthesis is captured whole. */
  lemma ParenValueClosed(v: string)
    requires v != "" && NoLineTerminator(v)
    ensures ParenValue(v + ")") == Some(v)
  {
    var s := v + ")";
    assert s[..|v|] == v;
    assert ClosesAt(s, |v|);
  }

  /** The result token and the value are recovered from the text after the marker. */
  lemma ParseResultText(r: Response)
    requires WellFormed(r)
    ensures var rest := ResultText(r); var p := IndexOf(rest, '(');
      && Trim(rest[..p]) == r.result
      && ValueAfter(rest, p) == r.value
  {
    ResultTextSplit(r);
    TrimTrimmed(r.result);
    ResultTextValue(r);
  }

  lemma ResultTextSplit(r: Response)
    requires '(' !in r.result
    ensures var rest := ResultText(r);
      IndexOf(rest, '(') == |r.result| && rest[..|r.result|] == r.result
  {
    var rest := ResultText(r);
    assert rest[..|r.result|] == r.result;
    if r.value.Some? {
      assert rest[|r.result|] == '(';
    } else {
      assert rest == r.result;
    }
  }

  lemma ResultTextValue(r: Response)
    requires r.value.Some? ==> r.value.value != "" && NoLineTerminator(r.value.value)
    ensures var rest := ResultText(r); var p := |r.result|;
      ValueAfter(rest, p) == r.value
  {
    var rest := ResultText(r);
    if r.value.Some? {
      var v := r.value.value;
      assert rest == r.result + "(" + v + ")";
      assert rest[|r.result| + 1..] == v + ")";
      ParenValueClosed(v);
    } else {
      assert rest == r.result;
    }
  }

  /** `ParseLine` on a line assembled from three digits, the marker and the rest. */
  lemma ParseLineParts(digits: string, rest: string)
    requires |digits| == 3 && AllDigits(digits)
    ensures var p := IndexOf(rest, '(');
      ParseLine(digits + ResultMarker + rest) == Some(Response(DigitsValue(digits), Trim(rest[..p]), ValueAfter(rest, p)))
  {
    var line := digits + ResultMarker + rest;
    assert line[..3] == digits;
    assert line[3..11] == ResultMarker;
    assert line[11..] == rest;
  }

  /** Every well-formed response is parsed back from its line. */
  lemma ParseFormatRoundTrip(r: Response)
    requires WellFormed(r)
    ensures ParseLine(FormatResponse(r)) == Some(r)
  {
    CodeDigitsValue(r.code);
    ParseLineParts(CodeDigits(r.code), ResultText(r));
    ParseResultText(r);
  }

  /** A bare result, as in `200 result=0` and `200 result=-1`. */
  lemma ParseBareResult(code: nat, result: string)
    requires code < 1000 && result != "" && '(' !in result && IsTrimmed(result)
    ensures ParseLine(CodeDigits(code) + ResultMarker + result) == Some(Response(code, result, None))
  {
    ParseFormatRoundTrip(Response(code, result, None));
    assert FormatResponse(Response(code, result, None)) == CodeDigits(code) + ResultMarker + result;
  }

  /** `200 result=0 (a value)`: the space before the parenthesis is trimmed off the
      result and the value is the text inside. */
  lemma ParseSpacedValue(code: nat, result: string, v: string)
    requires code < 1000 && '(' !in result && IsTrimmed(result) && result != ""
    requires v != "" && NoLineTerminator(v)
    ensures ParseLine(CodeDigits(code) + ResultMarker + (result + " (" + v + ")")) == Some(Response(code, result, Some(v)))
  {
    var rest := result + " (" + v + ")";
    assert Trim(rest[..IndexOf(rest, '(')]) == result && ValueAfter(rest, IndexOf(rest, '(')) == Some(v) by {
      SpacedParen(result, v, rest);
      ParenValueClosed(v);
      TrimPadded(result, " ");
    }
    ParseCodeLine(code, rest, result, Some(v));
  }

  /** `ParseLine` on a line made of a code, the marker and a rest whose result
      and value are known. */
  lemma ParseCodeLine(code: nat, rest: string, result: string, value: Option<string>)
    requires code < 1000
    requires Trim(rest[..IndexOf(rest, '(')]) == result && ValueAfter(rest, IndexOf(rest, '(')) == value
    ensures ParseLine(CodeDigits(code) + ResultMarker + rest) == Some(Response(code, result, value))
  {
    CodeDigitsValue(code);
    ParseLineParts(CodeDigits(code), rest);
  }

  lemma SpacedParen(result: string, v: string, rest: string)
    requires '(' !in result && rest == result + " (" + v + ")"
    ensures IndexOf(rest, '(') == |result| + 1
    ensures rest[..|result| + 1] == result + " "
    ensures rest[|result| + 2..] == v + ")"
  {
    var p := |result| + 1;
    assert rest[..p] == result + " ";
    assert rest[p] == '(';
    IndexOfAt(rest, '(', p);
    assert rest[p + 1..] == v + ")";
  }

  /** `200 result=1 ()`: an empty pair of parentheses gives no value. */
  lemma ParseEmptyValue(code: nat, result: string)
    requires code < 1000 && '(' !in result && IsTrimmed(result) && result != ""
    ensures ParseLine(CodeDigits(code) + ResultMarker + (result + " ()")) == Some(Response(code, result, None))
  {
    var rest := result + " ()";
    assert Trim(rest[..IndexOf(rest, '(')]) == result && ValueAfter(rest, IndexOf(rest, '(')) == None by {
      EmptyParen(result, rest);
      assert FirstLineTerminator(")") == 1;
      assert ")"[..1] == ")";
      TrimPadded(result, " ");
    }
    ParseCodeLine(code, rest, result, None);
  }

  lemma EmptyParen(result: string, rest: string)
    requires '(' !in result && rest == result + " ()"
    ensures IndexOf(rest, '(') == |result| + 1
    ensures rest[..|result| + 1] == result + " "
    ensures rest[|result| + 2..] == ")"
  {
    var p := |result| + 1;
    assert rest[..p] == result + " ";
    assert rest[p] == '(';
    IndexOfAt(rest, '(', p);
  }

  /** The lines of the repository's tests. */
  lemma ParseExampleResult(line: string)
    requires line == "200 result=0"
    ensures ParseLine(line) == Some(Response(200, "0", None))
  {
    var result := "0";
    assert line == CodeDigits(200) + ResultMarker + result by { CodeTwoHundred(); }
    ParseBareResult(200, result);
  }

  lemma ParseExampleNegative(line: string)
    requires line == "200 result=-1"
    ensures ParseLine(line) == Some(Response(200, "-1", None))
  {
    var result := "-1";
    assert line == CodeDigits(200) + ResultMarker + result by { CodeTwoHundred(); }
    ParseBareResult(200, result);
  }

  lemma ParseExampleValue(line: string)
    requires line == "200 result=0 (a value)"
    ensures ParseLine(line) == Some(Response(200, "0", Some("a value")))
  {
    var result, v := "0", "a value";
    assert line == CodeDigits(200) + ResultMarker + (result + " (" + v + ")") by { CodeTwoHundred(); }
    ParseSpacedValue(200, result, v);
  }

  lemma ParseExampleEmptyValue(line: string)
    requires line == "200 result=1 ()"
    ensures ParseLine(line) == Some(Response(200, "1", None))
  {
    var result := "1";
    assert line == CodeDigits(200) + ResultMarker + (result + " ()") by { CodeTwoHundred(); }
    ParseEmptyValue(200, result);
  }

  lemma CodeTwoHundred()
    ensures CodeDigits(200) == "200"
  {
  }

  /** A line that is not a response. */
  lemma ParseExampleHangup()
    ensures ParseLine("HANGUP") == None
  {
  }

  // ---------------------------------------------------------------------------
  // Handshake lines, split at their colons into a name and a value

  /**
   * One handshake line as a (name, value) pair: the name is the text before the
   * first colon without its first four characters, the value the text between
   * the first and the second colon, trimmed ("" when there is no colon).
   */
  function VariableEntry(line: string): (e: (string, string))
    ensures ':' !in e.0 && ':' !in e.1 && IsTrimmed(e.1)
  {
    var parts := Split(line, ':');
    var name := parts[0];
    var value := if |parts| >= 2 then parts[1] else "";
    TrimOmits(value, ':');
    (if |name| >= 4 then name[4..] else "", Trim(value))
  }

  /** The first two pieces of a split, in terms of `indexOf`. */
  lemma SplitFirstTwo(s: string, sep: char)
    ensures var c := IndexOf(s, sep); var parts := Split(s, sep);
      && parts[0] == s[..c]
      && (|parts| >= 2 <==> c < |s|)
      && (c < |s| ==> var after := s[c + 1..]; parts[1] == after[..IndexOf(after, sep)])
  {
    SplitFirst(s, sep);
    var c := IndexOf(s, sep);
    if c < |s| {
      SplitFirst(s[c + 1..], sep);
    }
  }

  /** The entries of the handshake lines, in order. */
  function Entries(lines: seq<string>): (es: seq<(string, string)>)
    ensures |es| == |lines|
    ensures forall i :: 0 <= i < |lines| ==> es[i] == VariableEntry(lines[i])
  {
    seq(|lines|, i requires 0 <= i < |lines| => VariableEntry(lines[i]))
  }

  /** The variables after writing each entry in order into `vars`. */
  function AddEntries(vars: map<string, string>, es: seq<(string, string)>): map<string, string>
    decreases |es|
  {
    if es == [] then vars
    else AddEntries(vars, es[..|es| - 1])[es[|es| - 1].0 := es[|es| - 1].1]
  }

  /** The variables after writing each line's entry in order into `vars`. */
  function AddVariables(vars: map<string, string>, lines: seq<string>): map<string, string>
  {
    AddEntries(vars, Entries(lines))
  }

  /** One more entry is written over the variables so far. */
  lemma AddEntriesSnoc(vars: map<string, string>, es: seq<(string, string)>, i: nat)
    requires i < |es|
    ensures AddEntries(vars, es[..i + 1]) == AddEntries(vars, es[..i])[es[i].0 := es[i].1]
  {
    assert es[..i + 1][..i] == es[..i];
  }

  /** The names the entries define are exactly the new keys. */
  lemma {:induction false} AddEntriesKeys(vars: map<string, string>, es: seq<(string, string)>)
    ensures AddEntries(vars, es).Keys == vars.Keys + set i | 0 <= i < |es| :: es[i].0
    decreases |es|
  {
    if es != [] {
      var init := es[..|es| - 1];
      AddEntriesKeys(vars, init);
      var last := es[|es| - 1].0;
      var names := set i | 0 <= i < |es| :: es[i].0;
      var initNames := set i | 0 <= i < |init| :: init[i].0;
      assert names == initNames + {last} by {
        forall n | n in names ensures n in initNames + {last} {
          var i :| 0 <= i < |es| && es[i].0 == n;
          if i < |init| { assert init[i] == es[i]; }
        }
        forall n | n in initNames ensures n in names {
          var i :| 0 <= i < |init| && init[i].0 == n;
          assert es[i] == init[i];
        }
      }
    }
  }

  /** The keys after the handshake: the previous ones and every line's name. */
  lemma AddVariablesKeys(vars: map<string, string>, lines: seq<string>)
    ensures AddVariables(vars, lines).Keys == vars.Keys + set i | 0 <= i < |lines| :: VariableEntry(lines[i]).0
  {
    var es := Entries(lines);
    AddEntriesKeys(vars, es);
    assert (set i | 0 <= i < |es| :: es[i].0) == set i | 0 <= i < |lines| :: VariableEntry(lines[i]).0;
  }

  /** The last entry with a name decides its value. */
  lemma {:induction false} AddEntriesLastWins(vars: map<string, string>, es: seq<(string, string)>, i: nat)
    requires i < |es|
    requires forall j :: i < j < |es| ==> es[j].0 != es[i].0
    ensures es[i].0 in AddEntries(vars, es) && AddEntries(vars, es)[es[i].0] == es[i].1
    decreases |es|
  {
    if i < |es| - 1 {
      var init := es[..|es| - 1];
      assert init[i] == es[i];
      forall j | i < j < |init| ensures init[j].0 != init[i].0 {
        assert init[j] == es[j];
      }
      AddEntriesLastWins(vars, init, i);
    }
  }

  /** A later line with the same name overwrites an earlier one: a name takes the
      value of its last line. */
  lemma AddVariablesLastWins(vars: map<string, string>, lines: seq<string>, i: nat)
    requires i < |lines|
    requires forall j :: i < j < |lines| ==> VariableEntry(lines[j]).0 != VariableEntry(lines[i]).0
    ensures var e := VariableEntry(lines[i]);
      e.0 in AddVariables(vars, lines) && AddVariables(vars, lines)[e.0] == e.1
  {
    AddEntriesLastWins(vars, Entries(lines), i);
  }

  /** A key no entry names keeps its previous value. */
  lemma {:induction false} AddEntriesUntouched(vars: map<string, string>, es: seq<(string, string)>, k: string)
    requires forall j :: 0 <= j < |es| ==> es[j].0 != k
    ensures k in AddEntries(vars, es) <==> k in vars
    ensures k in vars ==> AddEntries(vars, es)[k] == vars[k]
    decreases |es|
  {
    if es != [] {
      var init := es[..|es| - 1];
      forall j | 0 <= j < |init| ensures init[j].0 != k {
        assert init[j] == es[j];
      }
      AddEntriesUntouched(vars, init, k);
    }
  }

  /** A key that no line names keeps its previous value. */
  lemma AddVariablesUntouched(vars: map<string, string>, lines: seq<string>, k: string)
    requires forall j :: 0 <= j < |lines| ==> VariableEntry(lines[j]).0 != k
    ensures k in AddVariables(vars, lines) <==> k in vars
    ensures k in vars ==> AddVariables(vars, lines)[k] == vars[k]
  {
    AddEntriesUntouched(vars, Entries(lines), k);
  }

  /** `data.split('\n').slice(0, -2)`: every piece but the last two. */
  function HandshakeLines(buffer: string): (lines: seq<string>)
    ensures var parts := Split(buffer, '\n');
      |lines| == (if |parts| >= 2 then |parts| - 2 else 0) && lines == parts[..|lines|]
  {
    var parts := Split(buffer, '\n');
    if |parts| >= 2 then parts[..|parts| - 2] else []
  }

  // ---------------------------------------------------------------------------
  // Response processing: `readResponseLine` and the `forEach` of `readResponse`

  /** The pending slot and the events after processing some input. */
  datatype Step = Step(pending: Option<CommandId>, events: seq<Event>)

  /** How `readResponseLine` sees one piece of the buffer. */
  datatype Reading = Blank | Unmatched | Matched(response: Response)

  function ReadingOf(line: string): (rd: Reading)
    ensures rd.Blank? <==> line == ""
    ensures rd.Matched? <==> ParseLine(line).Some?
    ensures rd.Matched? ==> rd.response == ParseLine(line).value
  {
    if line == "" then Blank
    else if ParseLine(line).None? then Unmatched
    else Matched(ParseLine(line).value)
  }

  function Readings(lines: seq<string>): (rds: seq<Reading>)
    ensures |rds| == |lines|
    ensures forall i :: 0 <= i < |lines| ==> rds[i] == ReadingOf(lines[i])
  {
    seq(|lines|, i requires 0 <= i < |lines| => ReadingOf(lines[i]))
  }

  /** One reading: nothing for a blank piece, a hangup for one that does not
      match, otherwise the pending callback (cleared first) then the response. */
  function ReadingStep(pending: Option<CommandId>, rd: Reading): Step
  {
    if rd.Blank? then Step(pending, [])
    else if rd.Unmatched? then Step(pending, [Hangup])
    else if pending.None? then Step(None, [Responded(rd.response)])
    else Step(None, [Resolved(pending.value, rd.response), Responded(rd.response)])
  }

  /** The readings processed one after the other, from the pending slot `pending`. */
  function ReadingsStep(pending: Option<CommandId>, rds: seq<Reading>): Step
    decreases |rds|
  {
    if rds == [] then Step(pending, [])
    else
      var prev := ReadingsStep(pending, rds[..|rds| - 1]);
      var last := ReadingStep(prev.pending, rds[|rds| - 1]);
      Step(last.pending, prev.events + last.events)
  }

  /** `readResponseLine` on one line. */
  function LineStep(pending: Option<CommandId>, line: string): Step
  {
    ReadingStep(pending, ReadingOf(line))
  }

  /** The `forEach` of `readResponse`: the lines processed one after the other. */
  function LinesStep(pending: Option<CommandId>, lines: seq<string>): Step
  {
    ReadingsStep(pending, Readings(lines))
  }

  /** One more line is processed from where the earlier ones left the slot. */
  lemma LinesStepSnoc(pending: Option<CommandId>, lines: seq<string>, line: string)
    ensures var prev := LinesStep(pending, lines); var last := LineStep(prev.pending, line);
      LinesStep(pending, lines + [line]) == Step(last.pending, prev.events + last.events)
  {
    var rds := Readings(lines + [line]);
    assert rds[..|lines|] == Readings(lines);
    assert rds[|lines|] == ReadingOf(line);
  }

  /** The responses among the readings, in order. */
  function MatchedResponses(rds: seq<Reading>): seq<Response>
    decreases |rds|
  {
    if rds == [] then []
    else
      var rd := rds[|rds| - 1];
      MatchedResponses(rds[..|rds| - 1]) + (if rd.Matched? then [rd.response] else [])
  }

  /** The number of readings that do not match. */
  function UnmatchedCount(rds: seq<Reading>): nat
    decreases |rds|
  {
    if rds == [] then 0
    else UnmatchedCount(rds[..|rds| - 1]) + (if rds[|rds| - 1].Unmatched? then 1 else 0)
  }

  /** The responses the lines yield, in order. */
  function ParsedResponses(lines: seq<string>): seq<Response>
  {
    MatchedResponses(Readings(lines))
  }

  /** The number of non-empty lines that do not match the response grammar. */
  function HangupLines(lines: seq<string>): nat
  {
    UnmatchedCount(Readings(lines))
  }

  /** The payloads of the `response` events, in order. */
  function Responses(events: seq<Event>): seq<Response>
    decreases |events|
  {
    if events == [] then []
    else
      var e := events[|events| - 1];
      Responses(events[..|events| - 1]) + (if e.Responded? then [e.response] else [])
  }

  /** The number of `hangup` events. */
  function Hangups(events: seq<Event>): nat
    decreases |events|
  {
    if events == [] then 0
    else Hangups(events[..|events| - 1]) + (if events[|events| - 1].Hangup? then 1 else 0)
  }

  /** The callbacks invoked, with the response each received, in order. */
  function Resolutions(events: seq<Event>): seq<(CommandId, Response)>
    decreases |events|
  {
    if events == [] then []
    else
      var e := events[|events| - 1];
      Resolutions(events[..|events| - 1]) + (if e.Resolved? then [(e.id, e.response)] else [])
  }

  /** No `variables` event among `events`. */
  predicate NoVariables(events: seq<Event>)
  {
    forall k :: 0 <= k < |events| ==> !events[k].Variables?
  }

  /** Every callback invocation is immediately followed by the `response` event
      carrying the same response. */
  predicate ResolvedBeforeResponded(events: seq<Event>)
  {
    forall k :: 0 <= k < |events| && events[k].Resolved? ==>
      k + 1 < |events| && events[k + 1] == Responded(events[k].response)
  }

  lemma {:induction false} ProjectionsAppend(a: seq<Event>, b: seq<Event>)
    ensures Responses(a + b) == Responses(a) + Responses(b)
    ensures Hangups(a + b) == Hangups(a) + Hangups(b)
    ensures Resolutions(a + b) == Resolutions(a) + Resolutions(b)
    decreases |b|
  {
    if b == [] {
      assert a + b == a;
    } else {
      var b' := b[..|b| - 1];
      ProjectionsAppend(a, b');
      assert (a + b)[..|a + b| - 1] == a + b';
      assert (a + b)[|a + b| - 1] == b[|b| - 1];
    }
  }

  /** The events of one reading, projected. */
  lemma ReadingStepEvents(pending: Option<CommandId>, rd: Reading)
    ensures var st := ReadingStep(pending, rd);
      && Responses(st.events) == (if rd.Matched? then [rd.response] else [])
      && Hangups(st.events) == (if rd.Unmatched? then 1 else 0)
      && st.pending == (if rd.Matched? then None else pending)
      && Resolutions(st.events) == (if rd.Matched? && pending.Some? then [(pending.value, rd.response)] else [])
      && NoVariables(st.events)
      && ResolvedBeforeResponded(st.events)
  {
    ReadingStepCounts(pending, rd);
  }

  lemma ReadingStepCounts(pending: Option<CommandId>, rd: Reading)
    ensures var st := ReadingStep(pending, rd);
      && Responses(st.events) == (if rd.Matched? then [rd.response] else [])
      && Hangups(st.events) == (if rd.Unmatched? then 1 else 0)
      && st.pending == (if rd.Matched? then None else pending)
      && Resolutions(st.events) == (if rd.Matched? && pending.Some? then [(pending.value, rd.response)] else [])
  {
    var st := ReadingStep(pending, rd);
    if |st.events| == 1 {
      assert st.events[..0] == [];
    } else if |st.events| == 2 {
      var first := Resolved(pending.value, rd.response);
      assert st.events[..1] == [first] && [first][..0] == [];
      assert Responses([first]) == [];
      assert Hangups([first]) == 0;
      assert Resolutions([first]) == [(pending.value, rd.response)];
    }
  }

  /** Two event runs that keep the callback-then-response order keep it together. */
  lemma ResolvedBeforeRespondedAppend(a: seq<Event>, b: seq<Event>)
    requires ResolvedBeforeResponded(a) && ResolvedBeforeResponded(b)
    requires NoVariables(a) && NoVariables(b)
    ensures ResolvedBeforeResponded(a + b) && NoVariables(a + b)
  {
    var all := a + b;
    forall k | 0 <= k < |all| && all[k].Resolved?
      ensures k + 1 < |all| && all[k + 1] == Responded(all[k].response)
    {
      if k >= |a| {
        assert all[k] == b[k - |a|];
        assert all[k + 1] == b[k + 1 - |a|];
      }
    }
    forall k | 0 <= k < |all| ensures !all[k].Variables? {
      if k >= |a| {
        assert all[k] == b[k - |a|];
      }
    }
  }

  /**
   * Processing readings in order: each match yields exactly one `response`
   * event, each non-matching piece exactly one `hangup`; a pending callback is
   * invoked exactly once, with the first response, right before that response
   * is emitted, and stays pending if nothing matches.
   */
  lemma ReadingsStepEvents(pending: Option<CommandId>, rds: seq<Reading>)
    ensures var st := ReadingsStep(pending, rds);
      && Responses(st.events) == MatchedResponses(rds)
      && Hangups(st.events) == UnmatchedCount(rds)
      && st.pending == (if MatchedResponses(rds) == [] then pending else None)
      && Resolutions(st.events) ==
           (if pending.Some? && MatchedResponses(rds) != [] then [(pending.value, MatchedResponses(rds)[0])] else [])
      && NoVariables(st.events)
      && ResolvedBeforeResponded(st.events)
  {
    ReadingsStepCounts(pending, rds);
    ReadingsStepOrder(pending, rds);
  }

  /** The responses, hangups and invocations of a run of readings. */
  lemma ReadingsStepCounts(pending: Option<CommandId>, rds: seq<Reading>)
    ensures var st := ReadingsStep(pending, rds);
      && Responses(st.events) == MatchedResponses(rds)
      && Hangups(st.events) == UnmatchedCount(rds)
      && st.pending == (if MatchedResponses(rds) == [] then pending else None)
      && Resolutions(st.events) ==
           (if pending.Some? && MatchedResponses(rds) != [] then [(pending.value, MatchedResponses(rds)[0])] else [])
  {
    ReadingsStepResponses(pending, rds);
    ReadingsStepHangups(pending, rds);
    ReadingsStepPending(pending, rds);
    ReadingsStepResolutions(pending, rds);
  }

  /** The last reading's step follows the earlier ones'. */
  lemma ReadingsStepLast(pending: Option<CommandId>, rds: seq<Reading>)
    requires rds != []
    ensures var prev := ReadingsStep(pending, rds[..|rds| - 1]); var last := ReadingStep(prev.pending, rds[|rds| - 1]);
      ReadingsStep(pending, rds) == Step(last.pending, prev.events + last.events)
  {
  }

  lemma {:induction false} ReadingsStepResponses(pending: Option<CommandId>, rds: seq<Reading>)
    ensures Responses(ReadingsStep(pending, rds).events) == MatchedResponses(rds)
    decreases |rds|
  {
    if rds != [] {
      var init, rd := rds[..|rds| - 1], rds[|rds| - 1];
      ReadingsStepResponses(pending, init);
      var prev := ReadingsStep(pending, init);
      var last := ReadingStep(prev.pending, rd);
      ReadingsStepLast(pending, rds);
      ProjectionsAppend(prev.events, last.events);
      ReadingStepCounts(prev.pending, rd);
    }
  }

  lemma {:induction false} ReadingsStepHangups(pending: Option<CommandId>, rds: seq<Reading>)
    ensures Hangups(ReadingsStep(pending, rds).events) == UnmatchedCount(rds)
    decreases |rds|
  {
    if rds != [] {
      var init, rd := rds[..|rds| - 1], rds[|rds| - 1];
      ReadingsStepHangups(pending, init);
      var prev := ReadingsStep(pending, init);
      var last := ReadingStep(prev.pending, rd);
      ReadingsStepLast(pending, rds);
      ProjectionsAppend(prev.events, last.events);
      ReadingStepCounts(prev.pending, rd);
    }
  }

  lemma {:induction false} ReadingsStepPending(pending: Option<CommandId>, rds: seq<Reading>)
    ensures ReadingsStep(pending, rds).pending == (if MatchedResponses(rds) == [] then pending else None)
    decreases |rds|
  {
    if rds != [] {
      var init, rd := rds[..|rds| - 1], rds[|rds| - 1];
      ReadingsStepPending(pending, init);
      ReadingsStepLast(pending, rds);
      assert MatchedResponses(rds) == MatchedResponses(init) + (if rd.Matched? then [rd.response] else []);
    }
  }

  lemma {:induction false} ReadingsStepResolutions(pending: Option<CommandId>, rds: seq<Reading>)
    ensures Resolutions(ReadingsStep(pending, rds).events) ==
      (if pending.Some? && MatchedResponses(rds) != [] then [(pending.value, MatchedResponses(rds)[0])] else [])
    decreases |rds|
  {
    if rds != [] {
      var init, rd := rds[..|rds| - 1], rds[|rds| - 1];
      ReadingsStepResolutions(pending, init);
      ReadingsStepPending(pending, init);
      var prev := ReadingsStep(pending, init);
      var last := ReadingStep(prev.pending, rd);
      ReadingsStepLast(pending, rds);
      ProjectionsAppend(prev.events, last.events);
      ReadingStepCounts(prev.pending, rd);
      var here: seq<Response> := if rd.Matched? then [rd.response] else [];
      assert MatchedResponses(rds) == MatchedResponses(init) + here;
      if MatchedResponses(init) != [] {
        HeadOfAppend(MatchedResponses(init), here);
      }
    }
  }

  /** A run of readings reports no `variables` event and puts each invocation
      right before its response. */
  lemma {:induction false} ReadingsStepOrder(pending: Option<CommandId>, rds: seq<Reading>)
    ensures var st := ReadingsStep(pending, rds);
      NoVariables(st.events) && ResolvedBeforeResponded(st.events)
    decreases |rds|
  {
    if rds != [] {
      var init := rds[..|rds| - 1];
      var rd := rds[|rds| - 1];
      ReadingsStepOrder(pending, init);
      var prev := ReadingsStep(pending, init);
      var last := ReadingStep(prev.pending, rd);
      assert ReadingsStep(pending, rds) == Step(last.pending, prev.events + last.events);
      ReadingStepEvents(prev.pending, rd);
      ResolvedBeforeRespondedAppend(prev.events, last.events);
    }
  }

  lemma HeadOfAppend<T>(a: seq<T>, b: seq<T>)
    requires a != []
    ensures (a + b)[0] == a[0]
  {
  }

  /** `LinesStep` on lines, in terms of the lines' responses and hangups. */
  lemma LinesStepEvents(pending: Option<CommandId>, lines: seq<string>)
    ensures var st := LinesStep(pending, lines);
      && Responses(st.events) == ParsedResponses(lines)
      && Hangups(st.events) == HangupLines(lines)
      && st.pending == (if ParsedResponses(lines) == [] then pending else None)
      && Resolutions(st.events) ==
           (if pending.Some? && ParsedResponses(lines) != [] then [(pending.value, ParsedResponses(lines)[0])] else [])
      && NoVariables(st.events)
      && ResolvedBeforeResponded(st.events)
  {
    ReadingsStepEvents(pending, Readings(lines));
  }

  // ---------------------------------------------------------------------------
  // The session as a value, and one `read`

  /** `State`: `init` until the handshake has been parsed, then `waiting` for good. */
  datatype State = Init | Waiting

  datatype Session = Session(
    state: State,
    buffer: string,
    variables: map<string, string>,
    pending: Option<CommandId>,
    events: seq<Event>)

  /** A newly constructed session. */
  function Initial(): Session
  {
    Session(Init, "", map[], None, [])
  }

  /** The blank line that ends the handshake. */
  const Terminator: string := "\n\n"

  /** `readVariables` on the whole buffer. */
  function AfterHandshake(s: Session, buffer: string): Session
  {
    var vars := AddVariables(s.variables, HandshakeLines(buffer));
    s.(state := Waiting, variables := vars, events := s.events + [Variables(vars)])
  }

  /** `readResponse` on the whole buffer. */
  function AfterResponses(s: Session, buffer: string): Session
  {
    var st := LinesStep(s.pending, Split(buffer, '\n'));
    s.(pending := st.pending, events := s.events + st.events)
  }

  /**
   * `read(data)`: append the chunk; in `init` wait for the blank line, then parse
   * the handshake and fall through; then, if the buffer holds a newline, process
   * every piece of it as a response line and empty the buffer.
   */
  function AfterRead(s: Session, data: string): Session
  {
    var buffer := s.buffer + data;
    if s.state == Init && !Contains(buffer, Terminator) then s.(buffer := buffer)
    else
      var h := if s.state == Init then AfterHandshake(s, buffer) else s;
      if '\n' !in buffer then h.(buffer := buffer)
      else AfterResponses(h, buffer).(buffer := "")
  }

  /** `send(msg, callback)`: the slot is overwritten whatever it held. */
  function AfterSend(s: Session, callback: CommandId): Session
  {
    s.(pending := Some(callback))
  }

  /**
   * The session invariant: before the handshake nothing has been reported and no
   * blank line is buffered; afterwards the first event is the one `variables`
   * event, carrying the variables, every callback invocation is followed by its
   * response, and no complete line is buffered.
   */
  ghost predicate Valid(s: Session)
  {
    && (s.state == Init ==> s.events == [] && s.variables == map[] && !Contains(s.buffer, Terminator))
    && (s.state == Waiting ==> Reported(s) && '\n' !in s.buffer)
  }

  lemma InitialValid()
    ensures Valid(Initial())
  {
    assert !Contains("", Terminator);
  }

  /**
   * A read keeps the invariant; the state never returns to `init`; once
   * `waiting`, the variables never change; events are only ever appended.
   */
  lemma ReadPreservesValid(s: Session, data: string)
    requires Valid(s)
    ensures var s' := AfterRead(s, data);
      && Valid(s')
      && (s.state == Waiting ==> s'.state == Waiting && s'.variables == s.variables)
      && |s'.events| >= |s.events| && s'.events[..|s.events|] == s.events
  {
    var buffer := s.buffer + data;
    if s.state == Init && !Contains(buffer, Terminator) {
    } else {
      var h := if s.state == Init then AfterHandshake(s, buffer) else s;
      assert Reported(h) && h.events[..|s.events|] == s.events && |h.events| >= |s.events| by {
        if s.state == Init {
          HandshakeReported(s, buffer);
        }
      }
      if '\n' in buffer {
        ResponsesReported(h, buffer);
      } else if s.state == Init {
        TerminatorHasNewline(buffer);
      }
    }
  }

  /** The part of the invariant that holds once the handshake is parsed: one
      leading `variables` event, then callbacks each right before their response. */
  ghost predicate Reported(s: Session)
  {
    && s.state == Waiting
    && |s.events| >= 1 && s.events[0] == Variables(s.variables)
    && NoVariables(s.events[1..])
    && ResolvedBeforeResponded(s.events[1..])
  }

  lemma HandshakeReported(s: Session, buffer: string)
    requires s.state == Init && s.events == []
    ensures Reported(AfterHandshake(s, buffer)) && |AfterHandshake(s, buffer).events| == 1
  {
  }

  lemma ResponsesReported(h: Session, buffer: string)
    requires Reported(h)
    ensures var s' := AfterResponses(h, buffer);
      Reported(s') && s'.variables == h.variables && s'.events[..|h.events|] == h.events
  {
    var st := LinesStep(h.pending, Split(buffer, '\n'));
    LinesStepEvents(h.pending, Split(buffer, '\n'));
    EventsReported(h, st);
  }

  lemma EventsReported(h: Session, st: Step)
    requires Reported(h) && NoVariables(st.events) && ResolvedBeforeResponded(st.events)
    ensures var s' := h.(pending := st.pending, events := h.events + st.events);
      Reported(s') && s'.events[..|h.events|] == h.events
  {
    var evs := h.events + st.events;
    assert evs[1..] == h.events[1..] + st.events;
    ResolvedBeforeRespondedAppend(h.events[1..], st.events);
    assert evs[..|h.events|] == h.events;
  }

  lemma TerminatorHasNewline(buffer: string)
    requires Contains(buffer, Terminator)
    ensures '\n' in buffer
  {
    var i :| 0 <= i <= |buffer| && OccursAt(buffer, Terminator, i);
    assert buffer[i] == Terminator[0];
  }

  /** Before the handshake is complete a read only buffers the chunk. */
  lemma ReadBeforeHandshake(s: Session, data: string)
    requires s.state == Init && !Contains(s.buffer + data, Terminator)
    ensures AfterRead(s, data) == s.(buffer := s.buffer + data)
  {
  }

  /**
   * After the handshake, a read of a chunk that completes no line only buffers
   * it; otherwise every piece of the buffer is processed as a response line and
   * the buffer is emptied.
   */
  lemma ReadWhileWaiting(s: Session, data: string)
    requires s.state == Waiting
    ensures var buffer := s.buffer + data; var s' := AfterRead(s, data);
      && s'.state == Waiting && s'.variables == s.variables
      && ('\n' !in buffer ==> s' == s.(buffer := buffer))
      && ('\n' in buffer ==>
            var lines := Split(buffer, '\n');
            var added := s'.events[|s.events|..];
            && s'.buffer == ""
            && s'.events == s.events + added
            && Responses(added) == ParsedResponses(lines)
            && Hangups(added) == HangupLines(lines)
            && Resolutions(added) ==
                 (if s.pending.Some? && ParsedResponses(lines) != [] then [(s.pending.value, ParsedResponses(lines)[0])] else [])
            && s'.pending == (if ParsedResponses(lines) == [] then s.pending else None))
  {
    var buffer := s.buffer + data;
    if '\n' in buffer {
      var lines := Split(buffer, '\n');
      LinesStepEvents(s.pending, lines);
      var st := LinesStep(s.pending, lines);
      assert (s.events + st.events)[|s.events|..] == st.events;
    }
  }

  // ---------------------------------------------------------------------------
  // The handshake read in chunks

  /** `read` called with each chunk in turn. */
  function ReadChunks(s: Session, chunks: seq<string>): Session
    decreases |chunks|
  {
    if chunks == [] then s else ReadChunks(AfterRead(s, chunks[0]), chunks[1..])
  }

  /** The chunks written one after the other. */
  function Concat(chunks: seq<string>): string
    decreases |chunks|
  {
    if chunks == [] then "" else chunks[0] + Concat(chunks[1..])
  }

  /** A handshake on its own: it ends with the blank line, and has no other. */
  predicate HandshakeText(h: string)
  {
    && |h| >= 2 && OccursAt(h, Terminator, |h| - 2)
    && forall i :: 0 <= i < |h| - 2 ==> !OccursAt(h, Terminator, i)
  }

  /** Once `waiting`, no read changes the state or the variables. */
  lemma {:induction false} WaitingChunks(s: Session, chunks: seq<string>)
    requires s.state == Waiting
    ensures ReadChunks(s, chunks).state == Waiting && ReadChunks(s, chunks).variables == s.variables
    decreases |chunks|
  {
    if chunks != [] {
      WaitingChunks(AfterRead(s, chunks[0]), chunks[1..]);
    }
  }

  /** A prefix of a handshake text holds the blank line only when it is all of it. */
  lemma HandshakePrefix(h: string, b: string)
    requires HandshakeText(h) && |b| <= |h| && h[..|b|] == b
    ensures Contains(b, Terminator) <==> b == h
  {
    if Contains(b, Terminator) {
      var i :| 0 <= i <= |b| && OccursAt(b, Terminator, i);
      assert h[i..i + 2] == b[i..i + 2];
      assert OccursAt(h, Terminator, i);
    }
    if b == h {
      assert OccursAt(b, Terminator, |h| - 2);
    }
  }

  /**
   * From a session still in `init` whose buffer is a proper prefix of a
   * handshake text, reading the rest of it in chunks parses the whole text.
   */
  lemma {:induction false} HandshakeChunksFrom(s: Session, chunks: seq<string>, h: string)
    requires HandshakeText(h) && s.state == Init && chunks != []
    requires s.buffer + Concat(chunks) == h && |s.buffer| < |h|
    ensures var r := ReadChunks(s, chunks);
      r.state == Waiting && r.variables == AddVariables(s.variables, HandshakeLines(h))
    decreases |chunks|
  {
    var b := s.buffer + chunks[0];
    var rest := Concat(chunks[1..]);
    assert b + rest == h;
    assert h[..|b|] == b;
    HandshakePrefix(h, b);
    var s1 := AfterRead(s, chunks[0]);
    if b == h {
      assert s1.state == Waiting && s1.variables == AddVariables(s.variables, HandshakeLines(h));
      WaitingChunks(s1, chunks[1..]);
    } else {
      assert s1 == s.(buffer := b);
      assert |rest| > 0;
      HandshakeChunksFrom(s1, chunks[1..], h);
    }
  }

  /**
   * However a handshake text is cut into chunks, the session ends up `waiting`
   * with the variables of reading it in one chunk.
   */
  lemma HandshakeChunks(chunks: seq<string>, h: string)
    requires HandshakeText(h) && Concat(chunks) == h
    ensures ReadChunks(Initial(), chunks).state == Waiting
    ensures ReadChunks(Initial(), chunks).variables == AfterRead(Initial(), h).variables
  {
    assert chunks != [];
    assert Initial().buffer + h == h;
    assert OccursAt(h, Terminator, |h| - 2);
    HandshakeChunksFrom(Initial(), chunks, h);
  }

  /** The same for a handshake text cut in two. */
  lemma HandshakeTwoChunks(a: string, b: string)
    requires HandshakeText(a + b)
    ensures AfterRead(AfterRead(Initial(), a), b).variables == AfterRead(Initial(), a + b).variables
  {
    ConcatTwo(a, b);
    HandshakeChunks([a, b], a + b);
    ReadTwoChunks(Initial(), a, b);
  }

  lemma ConcatTwo(a: string, b: string)
    ensures Concat([a, b]) == a + b
  {
    assert Concat([b]) == b by {
      assert [b][0] == b && [b][1..] == [];
      assert b + "" == b;
    }
    assert [a, b][0] == a && [a, b][1..] == [b];
  }

  lemma ReadTwoChunks(s: Session, a: string, b: string)
    ensures ReadChunks(s, [a, b]) == AfterRead(AfterRead(s, a), b)
  {
    var s1 := AfterRead(s, a);
    assert ReadChunks(s1, [b]) == AfterRead(s1, b) by {
      assert [b][0] == b && [b][1..] == [];
    }
    assert [a, b][0] == a && [a, b][1..] == [b];
  }

  /**
   * `split('\n').slice(0, -2)` of a handshake followed, in the same buffer, by
   * text holding a newline: the handshake lines, then an empty line, then all
   * but the last two pieces of the text after it.
   */
  lemma HandshakeLinesTrailing(p: string, r: string)
    requires '\n' in r
    ensures HandshakeLines(p + Terminator + r) == HandshakeLines(p + Terminator) + [""] + HandshakeLines(r)
  {
    var pp, pr := Split(p, '\n'), Split(r, '\n');
    assert |pr| >= 2 by {
      JoinSplit(r, '\n');
    }
    assert HandshakeLines(p + Terminator + r) == pp + [""] + pr[..|pr| - 2] by {
      SplitAroundBlank(p, r);
      DropLastTwo(pp, "", pr);
    }
    assert HandshakeLines(p + Terminator) == pp by {
      SplitAroundBlank(p, []);
      assert p + Terminator + [] == p + Terminator;
      assert Split([], '\n') == [""];
      DropBlankPair(pp, "");
    }
  }

  lemma DropBlankPair<T>(a: seq<T>, x: T)
    ensures (a + [x] + [x])[..|a + [x] + [x]| - 2] == a
  {
  }

  /** The blank line splits the text into the pieces before and after it. */
  lemma SplitAroundBlank(p: string, r: string)
    ensures Split(p + Terminator + r, '\n') == Split(p, '\n') + [""] + Split(r, '\n')
  {
    assert p + Terminator + r == p + ['\n'] + ([] + ['\n'] + r);
    SplitAtSeparator(p, [] + ['\n'] + r, '\n');
    SplitAtSeparator([], r, '\n');
    assert Split([], '\n') == [""];
    AppendAssoc(Split(p, '\n'), [""], Split(r, '\n'));
  }

  lemma DropLastTwo<T>(a: seq<T>, x: T, b: seq<T>)
    requires |b| >= 2
    ensures (a + [x] + b)[..|a + [x] + b| - 2] == a + [x] + b[..|b| - 2]
  {
  }


  /**
   * When text holding a newline arrives in the chunk that completes the
   * handshake, its pieces are parsed as handshake lines too: an empty line
   * (the blank line's own piece) and every piece of that text but the last two.
   * Sent as a chunk of its own, it would leave the variables alone.
   */
  lemma HandshakeTrailingData(p: string, r: string)
    requires '\n' in r
    ensures var one := AfterRead(Initial(), p + Terminator + r);
      var two := AfterRead(AfterRead(Initial(), p + Terminator), r);
      one.variables == AddVariables(two.variables, [""] + HandshakeLines(r))
  {
    var h := p + Terminator;
    var more := [""] + HandshakeLines(r);
    TerminatorAfter(p, r);
    assert AfterRead(Initial(), h + r).variables == AddVariables(map[], HandshakeLines(h) + more) by {
      OneChunkVariables(h + r);
      HandshakeLinesTrailing(p, r);
      AppendAssoc(HandshakeLines(h), [""], HandshakeLines(r));
    }
    OneChunkVariables(h);
    WaitingRead(AfterRead(Initial(), h), r);
    AddVariablesAppend(map[], HandshakeLines(h), more);
  }

  /** The blank line after `p` is found whatever follows it. */
  lemma TerminatorAfter(p: string, r: string)
    ensures Contains(p + Terminator, Terminator) && Contains(p + Terminator + r, Terminator)
  {
    var h := p + Terminator;
    assert OccursAt(h, Terminator, |p|);
    assert (h + r)[|p|..|p| + 2] == h[|p|..|p| + 2];
    assert OccursAt(h + r, Terminator, |p|);
  }

  lemma AppendAssoc<T>(x: seq<T>, y: seq<T>, z: seq<T>)
    ensures x + y + z == x + (y + z)
  {
  }

  /** Once `waiting`, a read changes neither the state nor the variables. */
  lemma WaitingRead(s: Session, data: string)
    requires s.state == Waiting
    ensures AfterRead(s, data).state == Waiting && AfterRead(s, data).variables == s.variables
  {
  }

  /** A first chunk that holds the blank line is parsed as the handshake. */
  lemma OneChunkVariables(x: string)
    requires Contains(x, Terminator)
    ensures AfterRead(Initial(), x).state == Waiting
    ensures AfterRead(Initial(), x).variables == AddVariables(map[], HandshakeLines(x))
  {
    assert Initial().buffer + x == x;
  }

  /** Writing the entries of two runs of lines is writing the first run, then the second. */
  lemma {:induction false} AddVariablesAppend(vars: map<string, string>, a: seq<string>, b: seq<string>)
    ensures AddVariables(vars, a + b) == AddVariables(AddVariables(vars, a), b)
    decreases |b|
  {
    if b == [] {
      assert a + b == a;
      AddVariablesNone(AddVariables(vars, a));
    } else {
      var init, last := b[..|b| - 1], b[|b| - 1];
      var e := VariableEntry(last);
      var mid := AddVariables(vars, a);
      SnocParts(a, b);
      AddVariablesSnoc(vars, a + init, last);
      AddVariablesSnoc(mid, init, last);
      AddVariablesAppend(vars, a, init);
    }
  }

  /** A non-empty sequence is its front and its last element, also behind a prefix. */
  lemma SnocParts<T>(a: seq<T>, b: seq<T>)
    requires b != []
    ensures b == b[..|b| - 1] + [b[|b| - 1]]
    ensures a + b == (a + b[..|b| - 1]) + [b[|b| - 1]]
  {
  }

  lemma AddVariablesNone(vars: map<string, string>)
    ensures AddVariables(vars, []) == vars
  {
    assert Entries([]) == [];
  }

  /** One more line writes its entry over the variables so far. */
  lemma AddVariablesSnoc(vars: map<string, string>, lines: seq<string>, line: string)
    ensures AddVariables(vars, lines + [line]) == AddVariables(vars, lines)[VariableEntry(line).0 := VariableEntry(line).1]
  {
    EntriesSnoc(lines, line);
    AddEntriesLast(vars, Entries(lines + [line]));
  }

  lemma EntriesSnoc(lines: seq<string>, line: string)
    ensures var es := Entries(lines + [line]);
      es[..|lines|] == Entries(lines) && es[|lines|] == VariableEntry(line)
  {
    assert (lines + [line])[..|lines|] == lines;
    EntriesPrefix(lines + [line], |lines|);
    assert (lines + [line])[|lines|] == line;
  }

  lemma AddEntriesLast(vars: map<string, string>, es: seq<(string, string)>)
    requires es != []
    ensures AddEntries(vars, es) == AddEntries(vars, es[..|es| - 1])[es[|es| - 1].0 := es[|es| - 1].1]
  {
  }

  lemma EntriesPrefix(lines: seq<string>, k: nat)
    requires k <= |lines|
    ensures Entries(lines)[..k] == Entries(lines[..k])
  {
  }

  /** The handshake lines of a text ending in the blank line are its pieces before it. */
  lemma HandshakeLinesOf(p: string)
    ensures HandshakeLines(p + Terminator) == Split(p, '\n')
  {
    assert p + Terminator == p + ['\n'] + ([] + ['\n'] + []);
    SplitAtSeparator(p, [] + ['\n'] + [], '\n');
    SplitAtSeparator([], [], '\n');
  }

  /**
   * A one-line handshake such as `agi_a: 1`, then text holding a newline such as
   * `200 result=0\n`: in one chunk the variables gain the name `""`, in two
   * chunks they do not.
   */
  lemma HandshakeTrailingName(p: string, r: string)
    requires '\n' !in p && IndexOf(p, ':') > 4 && '\n' in r
    ensures "" in AfterRead(Initial(), p + Terminator + r).variables
    ensures "" !in AfterRead(AfterRead(Initial(), p + Terminator), r).variables
  {
    HandshakeTrailingData(p, r);
    EmptyLineNamed(AfterRead(AfterRead(Initial(), p + Terminator), r).variables, HandshakeLines(r));
    OneLineHandshake(p, r);
    NamedEntry(p);
  }

  /** Lines led by an empty one define the name `""`. */
  lemma EmptyLineNamed(vars: map<string, string>, lines: seq<string>)
    ensures "" in AddVariables(vars, [""] + lines)
  {
    AddVariablesKeys(vars, [""] + lines);
    EmptyLineEntry();
    assert ([""] + lines)[0] == "";
  }

  /** A handshake of one line, however the next chunk goes, defines that line's entry alone. */
  lemma OneLineHandshake(p: string, r: string)
    requires '\n' !in p
    ensures AfterRead(AfterRead(Initial(), p + Terminator), r).variables == map[][VariableEntry(p).0 := VariableEntry(p).1]
  {
    TerminatorAfter(p, r);
    OneChunkVariables(p + Terminator);
    WaitingRead(AfterRead(Initial(), p + Terminator), r);
    HandshakeLinesOf(p);
    SplitNoSeparator(p, '\n');
    AddVariablesSnoc(map[], [], p);
    AddVariablesNone(map[]);
    assert [] + [p] == [p];
  }

  /** A line whose text before the first colon is longer than the `agi_` prefix names a variable. */
  lemma NamedEntry(line: string)
    requires IndexOf(line, ':') > 4
    ensures VariableEntry(line).0 != ""
  {
    SplitFirstTwo(line, ':');
  }

  /** The entry of an empty line: the name `""` with the value `""`. */
  lemma EmptyLineEntry()
    ensures VariableEntry("") == ("", "")
  {
    assert Split("", ':') == [""];
    assert Trim("") == "";
  }
}
