/**
 * The AGI command lines the session context builds (src/context.ts). Each
 * builder returns the line it hands to `sendCommand`; an argument the caller
 * may leave out is an `Option`, and one with a default takes it when `None`.
 *
 * JavaScript appends an optional trailing argument only when it is truthy:
 * an absent argument, `0`, the phone key `0` and `""` are all left off.
 */
module Commands {
  import opened Wrappers
  import opened Strings

  type Decimal = d: nat | d < 10

  /** `phoneKeys`: a digit, `*` or `#`. */
  datatype PhoneKey = Digit(d: Decimal) | Star | Hash

  datatype MusicMode = On | Off

  /** The levels `verbose` accepts. */
  type Level = l: int | 1 <= l <= 4 witness 1

  function KeyText(k: PhoneKey): (t: string)
    ensures |t| == 1 && t[0] != ' ' && t[0] != ',' && t[0] != '"' && t[0] != '\n'
    ensures ' ' !in t && ',' !in t
  {
    match k
    case Digit(d) => [DigitChar(d)]
    case Star => "*"
    case Hash => "#"
  }

  function KeyTexts(keys: seq<PhoneKey>): (ts: seq<string>)
    ensures |ts| == |keys| && forall i :: 0 <= i < |keys| ==> ts[i] == KeyText(keys[i])
  {
    seq(|keys|, i requires 0 <= i < |keys| => KeyText(keys[i]))
  }

  /** The key a one-character word names, if it names one. */
  function KeyOf(t: string): (k: Option<PhoneKey>)
    ensures k.Some? ==> KeyText(k.value) == t
  {
    if |t| != 1 then None
    else if t[0] == '*' then Some(Star)
    else if t[0] == '#' then Some(Hash)
    else if IsDigit(t[0]) then Some(Digit(t[0] as int - '0' as int))
    else None
  }

  /** Every key is read back from its word, so no two keys share a word. */
  lemma KeyTextRoundTrip(k: PhoneKey)
    ensures KeyOf(KeyText(k)) == Some(k)
  {
    if k.Digit? {
      assert KeyText(k)[0] == DigitChar(k.d);
    }
  }

  /** Distinct key lists render as distinct word lists. */
  lemma KeyTextsInjective(a: seq<PhoneKey>, b: seq<PhoneKey>)
    requires KeyTexts(a) == KeyTexts(b)
    ensures a == b
  {
    forall i | 0 <= i < |a| ensures a[i] == b[i] {
      KeyTextRoundTrip(a[i]);
      KeyTextRoundTrip(b[i]);
    }
  }

  /** `"${value}"`. */
  function Quoted(s: string): (r: string)
    ensures |r| == |s| + 2 && r[0] == '"' && r[|r| - 1] == '"' && r[1..|r| - 1] == s
    ensures ' ' !in s ==> ' ' !in r
  {
    "\"" + s + "\""
  }

  /**
   * `"${escapeDigits}"`: the keys, comma-joined as JavaScript renders an array,
   * inside double quotes. The keys are read back from between the quotes, and
   * no keys give `""`.
   */
  function EscapeDigits(keys: seq<PhoneKey>): (r: string)
    ensures r == Quoted(Join(KeyTexts(keys), ','))
    ensures ' ' !in r
    ensures keys == [] ==> r == "\"\""
    ensures keys != [] ==> Split(r[1..|r| - 1], ',') == KeyTexts(keys)
  {
    KeysJoin(keys);
    Quoted(Join(KeyTexts(keys), ','))
  }

  /** The escape word determines the keys: distinct key lists give distinct words. */
  lemma EscapeDigitsInjective(a: seq<PhoneKey>, b: seq<PhoneKey>)
    requires EscapeDigits(a) == EscapeDigits(b)
    ensures a == b
  {
    var r := EscapeDigits(a);
    if a != [] && b != [] {
      KeyTextsInjective(a, b);
    } else if a != [] || b != [] {
      var ks := if a != [] then a else b;
      assert false;
    }
  }

  /** The comma-joined keys hold no space, and split back into the keys. */
  lemma KeysJoin(keys: seq<PhoneKey>)
    ensures var ts := KeyTexts(keys);
      ' ' !in Join(ts, ',') && (keys != [] ==> Split(Join(ts, ','), ',') == ts)
  {
    var ts := KeyTexts(keys);
    assert NoneContains(ts, ' ') && NoneContains(ts, ',');
    JoinOmits(ts, ',', ' ');
    ReadBack(ts, ',');
  }

  /** A join of pieces that avoid a character avoids it, if the separator does. */
  lemma {:induction false} JoinOmits(parts: seq<string>, sep: char, c: char)
    ensures c != sep && NoneContains(parts, c) ==> c !in Join(parts, sep)
    decreases |parts|
  {
    if |parts| > 1 {
      JoinOmits(parts[1..], sep, c);
    }
  }

  /** A command line: the words separated by single spaces. */
  function Line(words: seq<string>): string
  {
    Join(words, ' ')
  }

  /** The pieces of a join are read back by splitting at the separator, when
      none of them holds it. */
  lemma ReadBack(parts: seq<string>, sep: char)
    ensures |parts| >= 1 && NoneContains(parts, sep) ==> Split(Join(parts, sep), sep) == parts
  {
    if |parts| >= 1 && NoneContains(parts, sep) {
      SplitJoin(parts, sep);
    }
  }

  /**
   * A word set between fixed words: the line is the head, a space and the word
   * itself, then the tail; splitting it at spaces reads back the head, the
   * word's own pieces and the tail.
   */
  lemma LineAround(head: seq<string>, w: string, tail: seq<string>)
    requires |head| >= 1 && NoneContains(head, ' ') && NoneContains(tail, ' ')
    ensures Line(head + [w] + tail) == Line(head) + " " + w + (if tail == [] then "" else " " + Line(tail))
    ensures Split(Line(head + [w] + tail), ' ') == head + Split(w, ' ') + tail
  {
    var line := Line(head + [w] + tail);
    LineAroundText(head, w, tail);
    SplitJoin(head, ' ');
    if tail == [] {
      assert line == Line(head) + [' '] + w;
      SplitAtSeparator(Line(head), w, ' ');
      assert head + Split(w, ' ') + tail == head + Split(w, ' ');
    } else {
      assert line == Line(head) + " " + w + " " + Line(tail);
      SplitAroundTail(Line(head), w, Line(tail));
      SplitJoin(tail, ' ');
    }
  }

  /**
   * A quoted value between fixed words is one piece of the line, whatever it
   * holds: the line is the head, a space and the quoted value, then the tail;
   * joining the words between head and tail gives the quoted value back, and
   * a value without a space is a single word.
   */
  lemma QuotedLine(head: seq<string>, value: string, tail: seq<string>)
    requires |head| >= 1 && NoneContains(head, ' ') && NoneContains(tail, ' ')
    ensures var r := Line(head + [Quoted(value)] + tail);
      r == Line(head) + " " + Quoted(value) + (if tail == [] then "" else " " + Line(tail))
    ensures var ws := Split(Line(head + [Quoted(value)] + tail), ' ');
      && ws == head + Split(Quoted(value), ' ') + tail
      && |head| + |tail| <= |ws| && Join(ws[|head|..|ws| - |tail|], ' ') == Quoted(value)
      && (' ' !in value ==> ws == head + [Quoted(value)] + tail)
  {
    var ws := Split(Line(head + [Quoted(value)] + tail), ' ');
    LineAround(head, Quoted(value), tail);
    assert ws[|head|..|ws| - |tail|] == Split(Quoted(value), ' ');
    JoinSplit(Quoted(value), ' ');
    if ' ' !in value {
      SplitNoSeparator(Quoted(value), ' ');
    }
  }

  /** Regrouping a head, a word and a tail as one list of words. */
  lemma Regroup<T>(a: T, b: T, c: T, tail: seq<T>)
    ensures [a] + [b] + tail == [a, b] + tail
    ensures [a, b] + [c] + tail == [a, b, c] + tail
    ensures [a, b] + [c] + [] == [a, b, c]
  {
  }

  lemma LineAroundText(head: seq<string>, w: string, tail: seq<string>)
    requires |head| >= 1
    ensures Line(head + [w] + tail) == Line(head) + " " + w + (if tail == [] then "" else " " + Line(tail))
  {
    if tail == [] {
      assert head + [w] + tail == head + [w];
      JoinAppend(head, [w], ' ');
    } else {
      assert head + [w] + tail == head + ([w] + tail);
      JoinAppend(head, [w] + tail, ' ');
      JoinAppend([w], tail, ' ');
    }
  }

  lemma SplitAroundTail(h: string, w: string, t: string)
    ensures Split(h + " " + w + " " + t, ' ') == Split(h, ' ') + Split(w, ' ') + Split(t, ' ')
  {
    assert h + " " + w + " " + t == h + [' '] + (w + [' '] + t);
    SplitAtSeparator(h, w + [' '] + t, ' ');
    SplitAtSeparator(w, t, ' ');
  }

  /** A command line with optional trailing words reads back word by word. */
  lemma LineWithTail(head: seq<string>, tail: seq<string>)
    requires |head| >= 1
    ensures NoneContains(head, ' ') && NoneContains(tail, ' ') ==> Split(Line(head + tail), ' ') == head + tail
  {
    if NoneContains(head, ' ') && NoneContains(tail, ' ') {
      SplitJoin(head + tail, ' ');
    }
  }

  /** A trailing number: one word when present and non-zero, none otherwise. */
  function IntArg(n: Option<int>): (ws: seq<string>)
    ensures |ws| <= 1 && NoneContains(ws, ' ')
    ensures ws != [] <==> n.Some? && n.value != 0
    ensures ws != [] ==> ws[0] == IntToString(n.value)
  {
    if n.Some? && n.value != 0 then [IntToString(n.value)] else []
  }

  /** A trailing text: one word when present and non-empty, none otherwise. */
  function TextArg(s: Option<string>): (ws: seq<string>)
    ensures |ws| <= 1
    ensures ws != [] <==> s.Some? && s.value != ""
    ensures ws != [] ==> ws[0] == s.value
  {
    if s.Some? && s.value != "" then [s.value] else []
  }

  /** A trailing key: one word, which names the key, unless absent or the key `0`. */
  function KeyArg(k: Option<PhoneKey>): (ws: seq<string>)
    ensures |ws| <= 1 && NoneContains(ws, ' ')
    ensures ws != [] <==> k.Some? && k.value != Digit(0)
    ensures ws != [] ==> ws[0] == KeyText(k.value) && KeyOf(ws[0]) == Some(k.value)
  {
    if k.Some? && k.value != Digit(0) then
      KeyTextRoundTrip(k.value);
      [KeyText(k.value)]
    else []
  }

  /** The optional trailing key and number hold no space. */
  lemma TrailingWords(k: Option<PhoneKey>, n: Option<int>)
    ensures NoneContains(KeyArg(k) + IntArg(n), ' ')
  {
    var ws := KeyArg(k) + IntArg(n);
    forall i | 0 <= i < |ws| ensures ' ' !in ws[i] {
      if i < |KeyArg(k)| {
        assert ws[i] == KeyText(k.value);
      } else {
        assert ws[i] == IntToString(n.value);
      }
    }
  }

  function Default<T>(o: Option<T>, d: T): T
  {
    if o.Some? then o.value else d
  }

  /** The keys `controlStreamFile` listens for unless told otherwise (no 9). */
  const ControlKeys: seq<PhoneKey> := [Digit(1), Digit(2), Digit(3), Digit(4), Digit(5), Digit(6), Digit(7), Digit(8), Digit(0)]

  /** What `"${escapeDigits}"` gives for `ControlKeys` (`ControlEscapeText`). */
  const ControlEscape: string := "\"1,2,3,4,5,6,7,8,0\""

  lemma ControlEscapeText()
    ensures EscapeDigits(ControlKeys) == ControlEscape
  {
    var ts := KeyTexts(ControlKeys);
    assert ts[..4] == ["1", "2", "3", "4"] && ts[4..] == ["5", "6", "7", "8", "0"] by {
      ControlKeyTexts();
    }
    assert ts == ts[..4] + ts[4..];
    JoinAppend(ts[..4], ts[4..], ',');
    assert Join(ts, ',') == "1,2,3,4,5,6,7,8,0" by {
      JoinHalves();
    }
    QuotedControl();
  }

  /** The escape-digits word of `controlStreamFile`: the given keys, or
      `ControlKeys` when none are given. */
  function ControlEscapeWord(escapeDigits: Option<seq<PhoneKey>>): (w: string)
    ensures escapeDigits.Some? ==> w == EscapeDigits(escapeDigits.value)
    ensures escapeDigits.None? ==> w == ControlEscape
    ensures ' ' !in w
  {
    if escapeDigits.Some? then EscapeDigits(escapeDigits.value)
    else ControlEscapeText(); ControlEscape
  }

  lemma QuotedControl()
    ensures Quoted("1,2,3,4,5,6,7,8,0") == ControlEscape
  {
  }

  lemma ControlKeyTexts()
    ensures KeyTexts(ControlKeys) == ["1", "2", "3", "4", "5", "6", "7", "8", "0"]
  {
  }

  lemma JoinHalves()
    ensures Join(["1", "2", "3", "4"], ',') + [','] + Join(["5", "6", "7", "8", "0"], ',') == "1,2,3,4,5,6,7,8,0"
  {
    JoinLow();
    JoinHigh();
  }

  lemma JoinLow()
    ensures Join(["1", "2", "3", "4"], ',') == "1,2,3,4"
  {
  }

  lemma JoinHigh()
    ensures Join(["5", "6", "7", "8", "0"], ',') == "5,6,7,8,0"
  {
  }

  // ---------------------------------------------------------------------------
  // The builders. Each states the words the peer reads, given that the
  // free-text arguments hold no space.

  function Answer(): (r: string)
    ensures Split(r, ' ') == ["ANSWER"]
  {
    var ws := ["ANSWER"]; ReadBack(ws, ' '); Line(ws)
  }

  function AsyncAgiBreak(): (r: string)
    ensures Split(r, ' ') == ["ASYNCAGI", "BREAK"]
  {
    var ws := ["ASYNCAGI", "BREAK"]; ReadBack(ws, ' '); Line(ws)
  }

  function ChannelStatus(channel: string): (r: string)
    ensures ' ' !in channel ==> Split(r, ' ') == ["CHANNEL", "STATUS", channel]
  {
    var ws := ["CHANNEL", "STATUS", channel]; ReadBack(ws, ' '); Line(ws)
  }

  lemma ControlHeadWords(filename: string, escapeWord: string, skipMs: int, ffChar: PhoneKey, rewChar: PhoneKey)
    requires ' ' !in escapeWord
    ensures ' ' !in filename ==> NoneContains(["CONTROL", "STREAM", "FILE", filename, escapeWord,
                                               IntToString(skipMs), KeyText(ffChar), KeyText(rewChar)], ' ')
  {
  }

  /** `controlStreamFile`: the pause key, then the offset, each only when truthy. */
  function ControlStreamFile(filename: string, escapeDigits: Option<seq<PhoneKey>>, skipMs: Option<int>,
                             ffChar: Option<PhoneKey>, rewChar: Option<PhoneKey>,
                             pauseChar: Option<PhoneKey>, offsetMs: Option<int>): (r: string)
    ensures ' ' !in filename ==> (
      Split(r, ' ') == ["CONTROL", "STREAM", "FILE", filename, ControlEscapeWord(escapeDigits),
                        IntToString(Default(skipMs, 3000)), KeyText(Default(ffChar, Hash)), KeyText(Default(rewChar, Star))]
                       + KeyArg(pauseChar) + IntArg(offsetMs))
  {
    var head := ["CONTROL", "STREAM", "FILE", filename, ControlEscapeWord(escapeDigits),
                 IntToString(Default(skipMs, 3000)), KeyText(Default(ffChar, Hash)), KeyText(Default(rewChar, Star))];
    var tail := KeyArg(pauseChar) + IntArg(offsetMs);
    ControlHeadWords(filename, ControlEscapeWord(escapeDigits), Default(skipMs, 3000),
                     Default(ffChar, Hash), Default(rewChar, Star));
    TrailingWords(pauseChar, offsetMs); LineWithTail(head, tail); Line(head + tail)
  }

  function DatabaseDel(family: string, key: string): (r: string)
    ensures ' ' !in family && ' ' !in key ==> Split(r, ' ') == ["DATABASE", "DEL", family, key]
  {
    var ws := ["DATABASE", "DEL", family, key]; ReadBack(ws, ' '); Line(ws)
  }

  function DatabaseDelTree(family: string, keyTree: string): (r: string)
    ensures ' ' !in family && ' ' !in keyTree ==> Split(r, ' ') == ["DATABASE", "DELTREE", family, keyTree]
  {
    var ws := ["DATABASE", "DELTREE", family, keyTree]; ReadBack(ws, ' '); Line(ws)
  }

  function DatabaseGet(family: string, key: string): (r: string)
    ensures ' ' !in family && ' ' !in key ==> Split(r, ' ') == ["DATABASE", "GET", family, key]
  {
    var ws := ["DATABASE", "GET", family, key]; ReadBack(ws, ' '); Line(ws)
  }

  function DatabasePut(family: string, key: string, value: string): (r: string)
    ensures ' ' !in family && ' ' !in key && ' ' !in value ==>
      Split(r, ' ') == ["DATABASE", "PUT", family, key, value]
  {
    var ws := ["DATABASE", "PUT", family, key, value]; ReadBack(ws, ' '); Line(ws)
  }

  /**
   * `exec(command, ...options)`: the options comma-joined into one word, which
   * is empty (a trailing space) when there are none; options without commas
   * are read back from it.
   */
  function Exec(command: string, options: seq<string>): (r: string)
    ensures ' ' !in command && NoneContains(options, ' ') ==>
      Split(r, ' ') == ["EXEC", command, Join(options, ',')]
    ensures options == [] ==> r == "EXEC " + command + " "
    ensures ' ' !in command && options != [] && NoneContains(options, ' ') && NoneContains(options, ',') ==>
      Split(Split(r, ' ')[2], ',') == options
  {
    JoinOmits(options, ',', ' ');
    ReadBack(options, ',');
    var ws := ["EXEC", command, Join(options, ',')];
    ReadBack(ws, ' ');
    assert ' ' !in command && NoneContains(options, ' ') ==> Split(Line(ws), ' ')[2] == Join(options, ',');
    assert Line(ws) == "EXEC " + Join([command, Join(options, ',')], ' ') by {
      assert ws[1..] == [command, Join(options, ',')];
    }
    assert Join([command, Join(options, ',')], ' ') == command + " " + Join(options, ',') by {
      assert [command, Join(options, ',')][1..] == [Join(options, ',')];
    }
    Line(ws)
  }

  function GetData(file: string, timeout: int, maxDigits: int): (r: string)
    ensures ' ' !in file ==> Split(r, ' ') == ["GET", "DATA", file, IntToString(timeout), IntToString(maxDigits)]
  {
    var ws := ["GET", "DATA", file, IntToString(timeout), IntToString(maxDigits)]; ReadBack(ws, ' '); Line(ws)
  }

  /** `getFullVariable`: the channel name defaults to the empty word. */
  function GetFullVariable(name: string, channel: Option<string>): (r: string)
    ensures ' ' !in name && ' ' !in Default(channel, "") ==>
      Split(r, ' ') == ["GET", "FULL", "VARIABLE", name, Default(channel, "")]
  {
    var ws := ["GET", "FULL", "VARIABLE", name, Default(channel, "")]; ReadBack(ws, ' '); Line(ws)
  }

  /** `getOption`: no escape digits and a 5000 ms timeout unless told otherwise. */
  function GetOption(filename: string, escapeDigits: Option<seq<PhoneKey>>, timeout: Option<int>): (r: string)
    ensures ' ' !in filename ==>
      Split(r, ' ') == ["GET", "OPTION", filename, EscapeDigits(Default(escapeDigits, [])), IntToString(Default(timeout, 5000))]
  {
    var ws := ["GET", "OPTION", filename, EscapeDigits(Default(escapeDigits, [])), IntToString(Default(timeout, 5000))];
    ReadBack(ws, ' '); Line(ws)
  }

  function GetVariable(name: string): (r: string)
    ensures ' ' !in name ==> Split(r, ' ') == ["GET", "VARIABLE", name]
  {
    var ws := ["GET", "VARIABLE", name]; ReadBack(ws, ' '); Line(ws)
  }

  function GoSub(context: string, extension: string, priority: string, optArg: Option<string>): (r: string)
    ensures ' ' !in context && ' ' !in extension && ' ' !in priority && ' ' !in Default(optArg, "") ==>
      Split(r, ' ') == ["GOSUB", context, extension, priority, Default(optArg, "")]
  {
    var ws := ["GOSUB", context, extension, priority, Default(optArg, "")]; ReadBack(ws, ' '); Line(ws)
  }

  /** `hangup(channel?)`: `HANGUP` alone unless a non-empty channel is named. */
  function Hangup(channel: Option<string>): (r: string)
    ensures ' ' !in Default(channel, "") ==> Split(r, ' ') == ["HANGUP"] + TextArg(channel)
  {
    var ws := ["HANGUP"] + TextArg(channel); ReadBack(ws, ' '); Line(ws)
  }

  function Noop(): (r: string)
    ensures Split(r, ' ') == ["NOOP"]
  {
    var ws := ["NOOP"]; ReadBack(ws, ' '); Line(ws)
  }

  function ReceiveChar(timeout: int): (r: string)
    ensures Split(r, ' ') == ["RECEIVE", "CHAR", IntToString(timeout)]
  {
    var ws := ["RECEIVE", "CHAR", IntToString(timeout)]; ReadBack(ws, ' '); Line(ws)
  }

  function ReceiveText(timeout: int): (r: string)
    ensures Split(r, ' ') == ["RECEIVE", "TEXT", IntToString(timeout)]
  {
    var ws := ["RECEIVE", "TEXT", IntToString(timeout)]; ReadBack(ws, ' '); Line(ws)
  }

  /** `recordFile`: `1` when asked to beep, then `s=` and the silence when it is
      truthy, in that order. */
  function RecordFile(file: string, format: Option<string>, escapeDigits: Option<seq<PhoneKey>>,
                      timeout: Option<int>, offsetSamples: Option<int>,
                      beep: Option<bool>, silence: Option<int>): (r: string)
    ensures ' ' !in file && ' ' !in Default(format, "wav") ==> (
      Split(r, ' ') == ["RECORD", "FILE", Quoted(file), Default(format, "wav"), EscapeDigits(Default(escapeDigits, [])),
                        IntToString(Default(timeout, -1)), IntToString(Default(offsetSamples, 0))]
                       + (if beep == Some(true) then ["1"] else [])
                       + (if silence.Some? && silence.value != 0 then ["s=" + IntToString(silence.value)] else []))
  {
    var head := ["RECORD", "FILE", Quoted(file), Default(format, "wav"), EscapeDigits(Default(escapeDigits, [])),
                 IntToString(Default(timeout, -1)), IntToString(Default(offsetSamples, 0))];
    var tail := (if beep == Some(true) then ["1"] else [])
                + (if silence.Some? && silence.value != 0 then ["s=" + IntToString(silence.value)] else []);
    RecordHeadWords(file, Default(format, "wav"), EscapeDigits(Default(escapeDigits, [])),
                    Default(timeout, -1), Default(offsetSamples, 0));
    RecordTailWords(beep, silence);
    LineWithTail(head, tail); Line(head + tail)
  }

  /** `recordFile` keeps a file name with spaces as one quoted piece, read back
      whole from between `RECORD FILE` and the format. */
  lemma RecordFileQuoted(file: string, format: Option<string>, escapeDigits: Option<seq<PhoneKey>>,
                         timeout: Option<int>, offsetSamples: Option<int>, beep: Option<bool>, silence: Option<int>)
    requires ' ' !in Default(format, "wav")
    ensures var rest := [Default(format, "wav"), EscapeDigits(Default(escapeDigits, [])),
                         IntToString(Default(timeout, -1)), IntToString(Default(offsetSamples, 0))]
                        + ((if beep == Some(true) then ["1"] else [])
                           + (if silence.Some? && silence.value != 0 then ["s=" + IntToString(silence.value)] else []));
      var ws := Split(RecordFile(file, format, escapeDigits, timeout, offsetSamples, beep, silence), ' ');
      && ws == ["RECORD", "FILE"] + Split(Quoted(file), ' ') + rest
      && |ws| >= 2 + |rest| && Join(ws[2..|ws| - |rest|], ' ') == Quoted(file)
  {
    var f, e := Default(format, "wav"), EscapeDigits(Default(escapeDigits, []));
    var t, o := IntToString(Default(timeout, -1)), IntToString(Default(offsetSamples, 0));
    var tail := (if beep == Some(true) then ["1"] else [])
                + (if silence.Some? && silence.value != 0 then ["s=" + IntToString(silence.value)] else []);
    RecordTailWords(beep, silence);
    assert RecordFile(file, format, escapeDigits, timeout, offsetSamples, beep, silence)
      == Line(["RECORD", "FILE", Quoted(file), f, e, t, o] + tail);
    RecordQuotedWords(file, f, e, t, o, tail);
  }

  lemma RecordQuotedWords(file: string, f: string, e: string, t: string, o: string, tail: seq<string>)
    requires ' ' !in f && ' ' !in e && ' ' !in t && ' ' !in o && NoneContains(tail, ' ')
    ensures var rest := [f, e, t, o] + tail;
      var ws := Split(Line(["RECORD", "FILE", Quoted(file), f, e, t, o] + tail), ' ');
      && ws == ["RECORD", "FILE"] + Split(Quoted(file), ' ') + rest
      && |ws| >= 2 + |rest| && Join(ws[2..|ws| - |rest|], ' ') == Quoted(file)
  {
    var rest := [f, e, t, o] + tail;
    assert NoneContains(rest, ' ');
    assert ["RECORD", "FILE", Quoted(file), f, e, t, o] + tail == ["RECORD", "FILE"] + [Quoted(file)] + rest;
    QuotedLine(["RECORD", "FILE"], file, rest);
  }

  lemma RecordHeadWords(file: string, format: string, escapeWord: string, timeout: int, offsetSamples: int)
    requires ' ' !in escapeWord
    ensures ' ' !in file && ' ' !in format ==>
      NoneContains(["RECORD", "FILE", Quoted(file), format, escapeWord, IntToString(timeout), IntToString(offsetSamples)], ' ')
  {
  }

  lemma RecordTailWords(beep: Option<bool>, silence: Option<int>)
    ensures NoneContains((if beep == Some(true) then ["1"] else [])
                         + (if silence.Some? && silence.value != 0 then ["s=" + IntToString(silence.value)] else []), ' ')
  {
    if silence.Some? && silence.value != 0 {
      var w := "s=" + IntToString(silence.value);
      assert ' ' !in w by {
        assert forall i :: 2 <= i < |w| ==> w[i] == IntToString(silence.value)[i - 2];
      }
    }
  }

  function SayAlpha(data: string, escapeDigits: Option<seq<PhoneKey>>): (r: string)
    ensures ' ' !in data ==> Split(r, ' ') == ["SAY", "ALPHA", data, EscapeDigits(Default(escapeDigits, []))]
  {
    var ws := ["SAY", "ALPHA", data, EscapeDigits(Default(escapeDigits, []))]; ReadBack(ws, ' '); Line(ws)
  }

  function SayDigits(data: int, escapeDigits: Option<seq<PhoneKey>>): (r: string)
    ensures Split(r, ' ') == ["SAY", "DIGITS", IntToString(data), EscapeDigits(Default(escapeDigits, []))]
  {
    var ws := ["SAY", "DIGITS", IntToString(data), EscapeDigits(Default(escapeDigits, []))]; ReadBack(ws, ' '); Line(ws)
  }

  /** `sayNumber`: the gender only when non-empty. */
  function SayNumber(data: int, escapeDigits: Option<seq<PhoneKey>>, gender: Option<string>): (r: string)
    ensures ' ' !in Default(gender, "") ==>
      Split(r, ' ') == ["SAY", "NUMBER", IntToString(data), EscapeDigits(Default(escapeDigits, []))] + TextArg(gender)
  {
    var ws := ["SAY", "NUMBER", IntToString(data), EscapeDigits(Default(escapeDigits, []))] + TextArg(gender);
    ReadBack(ws, ' '); Line(ws)
  }

  /** `sayPhonetic`: the quoted text is one piece of the line, whatever it holds. */
  function SayPhonetic(data: string, escapeDigits: Option<seq<PhoneKey>>): (r: string)
    ensures var e := EscapeDigits(Default(escapeDigits, []));
      && r == Line(["SAY", "PHONETIC"]) + " " + Quoted(data) + " " + Line([e])
      && Split(r, ' ') == ["SAY", "PHONETIC"] + Split(Quoted(data), ' ') + [e]
    ensures var ws := Split(r, ' '); |ws| >= 3 && Join(ws[2..|ws| - 1], ' ') == Quoted(data)
    ensures ' ' !in data ==>
      Split(r, ' ') == ["SAY", "PHONETIC", Quoted(data), EscapeDigits(Default(escapeDigits, []))]
  {
    var e := EscapeDigits(Default(escapeDigits, []));
    SayPhoneticWords(data, e);
    Line(["SAY", "PHONETIC"] + [Quoted(data)] + [e])
  }

  lemma SayPhoneticWords(data: string, e: string)
    requires ' ' !in e
    ensures var r := Line(["SAY", "PHONETIC"] + [Quoted(data)] + [e]);
      && r == Line(["SAY", "PHONETIC"]) + " " + Quoted(data) + " " + Line([e])
      && Split(r, ' ') == ["SAY", "PHONETIC"] + Split(Quoted(data), ' ') + [e]
      && var ws := Split(r, ' ');
      && |ws| >= 3 && Join(ws[2..|ws| - 1], ' ') == Quoted(data)
      && (' ' !in data ==> ws == ["SAY", "PHONETIC", Quoted(data), e])
  {
    assert NoneContains([e], ' ') && [e] != [];
    QuotedLine(["SAY", "PHONETIC"], data, [e]);
    Regroup("SAY", "PHONETIC", Quoted(data), [e]);
  }


  function SendImage(name: string): (r: string)
    ensures ' ' !in name ==> Split(r, ' ') == ["SEND", "IMAGE", name]
  {
    var ws := ["SEND", "IMAGE", name]; ReadBack(ws, ' '); Line(ws)
  }

  /** `sendText`: the quoted text is one piece of the line, whatever it holds. */
  function SendText(text: string): (r: string)
    ensures r == Line(["SEND", "TEXT"]) + " " + Quoted(text)
    ensures Split(r, ' ') == ["SEND", "TEXT"] + Split(Quoted(text), ' ')
    ensures var ws := Split(r, ' '); |ws| >= 2 && Join(ws[2..], ' ') == Quoted(text)
    ensures ' ' !in text ==> Split(r, ' ') == ["SEND", "TEXT", Quoted(text)]
  {
    var head := ["SEND", "TEXT"];
    QuotedLine(head, text, []);
    Regroup("SEND", "TEXT", Quoted(text), []);
    Line(head + [Quoted(text)] + [])
  }


  function SetAutoHangup(time: int): (r: string)
    ensures Split(r, ' ') == ["SET", "AUTOHANGUP", IntToString(time)]
  {
    var ws := ["SET", "AUTOHANGUP", IntToString(time)]; ReadBack(ws, ' '); Line(ws)
  }

  function SetCallerId(callerId: string): (r: string)
    ensures ' ' !in callerId ==> Split(r, ' ') == ["SET", "CALLERID", callerId]
  {
    var ws := ["SET", "CALLERID", callerId]; ReadBack(ws, ' '); Line(ws)
  }

  function SetContext(context: string): (r: string)
    ensures ' ' !in context ==> Split(r, ' ') == ["SET", "CONTEXT", context]
  {
    var ws := ["SET", "CONTEXT", context]; ReadBack(ws, ' '); Line(ws)
  }

  function SetExtension(extension: string): (r: string)
    ensures ' ' !in extension ==> Split(r, ' ') == ["SET", "EXTENSION", extension]
  {
    var ws := ["SET", "EXTENSION", extension]; ReadBack(ws, ' '); Line(ws)
  }

  /** `setMusic`: the class `default` unless told otherwise. */
  function SetMusic(mode: MusicMode, className: Option<string>): (r: string)
    ensures ' ' !in Default(className, "default") ==>
      Split(r, ' ') == ["SET", "MUSIC", if mode == On then "on" else "off", Default(className, "default")]
  {
    var ws := ["SET", "MUSIC", if mode == On then "on" else "off", Default(className, "default")];
    ReadBack(ws, ' '); Line(ws)
  }

  function SetPriority(priority: string): (r: string)
    ensures ' ' !in priority ==> Split(r, ' ') == ["SET", "PRIORITY", priority]
  {
    var ws := ["SET", "PRIORITY", priority]; ReadBack(ws, ' '); Line(ws)
  }

  /** `setVariable`: the quoted value is one piece of the line, whatever it holds. */
  function SetVariable(name: string, value: string): (r: string)
    ensures r == Line(["SET", "VARIABLE", name]) + " " + Quoted(value)
    ensures ' ' !in name ==>
      && Split(r, ' ') == ["SET", "VARIABLE", name] + Split(Quoted(value), ' ')
      && var ws := Split(r, ' '); |ws| >= 3 && Join(ws[3..], ' ') == Quoted(value)
    ensures ' ' !in name && ' ' !in value ==> Split(r, ' ') == ["SET", "VARIABLE", name, Quoted(value)]
  {
    var head := ["SET", "VARIABLE", name];
    LineAroundText(head, Quoted(value), []);
    if ' ' !in name then
      QuotedLine(head, value, []);
      Line(head + [Quoted(value)] + [])
    else Line(head + [Quoted(value)] + [])
  }


  /** `streamFile`: the offset only when truthy. */
  function StreamFile(filename: string, escapeDigits: Option<seq<PhoneKey>>, offsetMs: Option<int>): (r: string)
    ensures var tail := [EscapeDigits(Default(escapeDigits, []))] + IntArg(offsetMs);
      && r == Line(["STREAM", "FILE"]) + " " + Quoted(filename) + " " + Line(tail)
      && Split(r, ' ') == ["STREAM", "FILE"] + Split(Quoted(filename), ' ') + tail
    ensures var ws := Split(r, ' '); var n := 1 + |IntArg(offsetMs)|;
      |ws| >= 2 + n && Join(ws[2..|ws| - n], ' ') == Quoted(filename)
    ensures ' ' !in filename ==>
      Split(r, ' ') == ["STREAM", "FILE", Quoted(filename), EscapeDigits(Default(escapeDigits, []))] + IntArg(offsetMs)
  {
    var e, offset := EscapeDigits(Default(escapeDigits, [])), IntArg(offsetMs);
    StreamFileWords(filename, e, offset);
    Line(["STREAM", "FILE"] + [Quoted(filename)] + ([e] + offset))
  }

  lemma StreamFileWords(filename: string, e: string, offset: seq<string>)
    requires ' ' !in e && NoneContains(offset, ' ')
    ensures var r := Line(["STREAM", "FILE"] + [Quoted(filename)] + ([e] + offset));
      && r == Line(["STREAM", "FILE"]) + " " + Quoted(filename) + " " + Line([e] + offset)
      && Split(r, ' ') == ["STREAM", "FILE"] + Split(Quoted(filename), ' ') + ([e] + offset)
      && var ws := Split(r, ' ');
      && |ws| >= 3 + |offset| && Join(ws[2..|ws| - (1 + |offset|)], ' ') == Quoted(filename)
      && (' ' !in filename ==> ws == ["STREAM", "FILE", Quoted(filename), e] + offset)
  {
    var head, tail := ["STREAM", "FILE"], [e] + offset;
    assert NoneContains(tail, ' ');
    QuotedLine(head, filename, tail);
    Regroup("STREAM", "FILE", Quoted(filename), tail);
    assert ["STREAM", "FILE", Quoted(filename)] + ([e] + offset) == ["STREAM", "FILE", Quoted(filename), e] + offset;
  }



  /** `verbose`: the level only when given. */
  function Verbose(message: string, level: Option<Level>): (r: string)
    ensures var lw := if level.Some? then [IntToString(level.value)] else [];
      && r == Line(["VERBOSE"]) + " " + Quoted(message) + (if level.Some? then " " + Line(lw) else "")
      && Split(r, ' ') == ["VERBOSE"] + Split(Quoted(message), ' ') + lw
    ensures var ws := Split(r, ' '); var n := if level.Some? then 1 else 0;
      |ws| >= 1 + n && Join(ws[1..|ws| - n], ' ') == Quoted(message)
    ensures ' ' !in message ==>
      Split(r, ' ') == ["VERBOSE", Quoted(message)] + (if level.Some? then [IntToString(level.value)] else [])
  {
    var head, tail := ["VERBOSE"], if level.Some? then [IntToString(level.value)] else [];
    QuotedLine(head, message, tail);
    Regroup("VERBOSE", Quoted(message), "", tail);
    Line(head + [Quoted(message)] + tail)
  }


  /** `waitForDigit`: a 10000 ms timeout unless told otherwise. */
  function WaitForDigit(timeout: Option<int>): (r: string)
    ensures Split(r, ' ') == ["WAIT", "FOR", "DIGIT", IntToString(Default(timeout, 10000))]
  {
    var ws := ["WAIT", "FOR", "DIGIT", IntToString(Default(timeout, 10000))]; ReadBack(ws, ' '); Line(ws)
  }

  /** `dial(target, timeout, params)`: `Dial` run through `exec` with the target
      and the timeout joined by a comma, so three comma-separated options. */
  function Dial(target: string, timeout: int, params: string): (r: string)
    ensures r == Exec("Dial", [target, IntToString(timeout), params])
  {
    var opts := [target + "," + IntToString(timeout), params];
    assert Join(opts, ',') == Join([target, IntToString(timeout), params], ',');
    Exec("Dial", opts)
  }

  // ---------------------------------------------------------------------------
  // On the wire

  /** `sendCommand` writes the line and one newline: the peer reads exactly that
      line, provided it holds no newline itself. */
  lemma WireLine(command: string)
    requires '\n' !in command
    ensures Split(command + "\n", '\n') == [command, ""]
  {
    SplitAtSeparator(command, "", '\n');
    assert command + ['\n'] + "" == command + "\n";
    SplitNoSeparator(command, '\n');
  }

  // ---------------------------------------------------------------------------
  // The lines the repository's tests expect, as the words joined by single
  // spaces, with each builder's defaults where a test leaves an argument out.

  lemma SetAutoHangupExample(time: int)
    requires time == 10
    ensures SetAutoHangup(time) == Line(["SET", "AUTOHANGUP", "10"])
  {
    assert IntToString(time) == "10" by { Numerals(); }
  }

  lemma SetCallerIdExample(callerId: string)
    requires callerId == "246"
    ensures SetCallerId(callerId) + "\n" == "SET CALLERID 246\n"
  {
    ThreeWords("SET", "CALLERID", callerId);
  }

  /** Five words joined by single spaces. */
  lemma FiveWords(a: string, b: string, c: string, d: string, e: string)
    ensures Line([a, b, c, d, e]) == a + " " + b + " " + c + " " + d + " " + e
  {
    assert [a, b, c] + [d, e] == [a, b, c, d, e];
    JoinAppend([a, b, c], [d, e], ' ');
    ThreeWords(a, b, c);
    ThreeWords(d, e, "");
    assert a + " " + b + " " + c + [' '] + (d + " " + e) == a + " " + b + " " + c + " " + d + " " + e;
  }

  /** Two and three words joined by single spaces. */
  lemma ThreeWords(a: string, b: string, c: string)
    ensures Line([a, b]) == a + " " + b
    ensures Line([a, b, c]) == a + " " + b + " " + c
  {
    assert Join([c], ' ') == c;
    assert [a, b][1..] == [b];
    assert Join([a, b], ' ') == a + [' '] + b;
    assert [b, c][1..] == [c];
    assert Join([b, c], ' ') == b + [' '] + c;
    assert [a, b, c][1..] == [b, c];
    assert Join([a, b, c], ' ') == a + [' '] + (b + [' '] + c);
    assert a + [' '] + (b + [' '] + c) == a + " " + b + " " + c;
  }

  lemma SetContextExample(context: string)
    requires context == "outbound"
    ensures SetContext(context) + "\n" == "SET CONTEXT outbound\n"
  {
    ThreeWords("SET", "CONTEXT", context);
  }


  lemma SetExtensionExample(extension: string)
    requires extension == "245"
    ensures SetExtension(extension) + "\n" == "SET EXTENSION 245\n"
  {
    ThreeWords("SET", "EXTENSION", extension);
  }


  lemma SetPriorityExample(priority: string)
    requires priority == "2"
    ensures SetPriority(priority) + "\n" == "SET PRIORITY 2\n"
  {
    ThreeWords("SET", "PRIORITY", priority);
  }


  lemma SetMusicExample()
    ensures SetMusic(On, None) == Line(["SET", "MUSIC", "on", "default"])
  {
  }

  lemma ChannelStatusExample(channel: string)
    requires channel == "test"
    ensures ChannelStatus(channel) + "\n" == "CHANNEL STATUS test\n"
  {
    ThreeWords("CHANNEL", "STATUS", channel);
  }


  lemma GetFullVariableExample(name: string, channel: string)
    requires name == "test" && channel == "test"
    ensures GetFullVariable(name, Some(channel)) + "\n" == "GET FULL VARIABLE test test\n"
  {
    FiveWords("GET", "FULL", "VARIABLE", name, channel);
    GetFullVariableSpelled(name, channel);
  }

  lemma GetFullVariableSpelled(name: string, channel: string)
    requires name == "test" && channel == "test"
    ensures "GET" + " " + "FULL" + " " + "VARIABLE" + " " + name + " " + channel + "\n" == "GET FULL VARIABLE test test\n"
  {
  }



  lemma GetDataExample(timeout: int, maxDigits: int)
    requires timeout == 10 && maxDigits == 5
    ensures GetData("test", timeout, maxDigits) == Line(["GET", "DATA", "test", "10", "5"])
  {
    assert IntToString(timeout) == "10" && IntToString(maxDigits) == "5" by { Numerals(); }
  }

  lemma GetOptionExample(escapeDigits: seq<PhoneKey>, timeout: int)
    requires escapeDigits == [Hash] && timeout == 5
    ensures GetOption("test", Some(escapeDigits), Some(timeout)) == Line(["GET", "OPTION", "test", "\"#\"", "5"])
  {
    assert EscapeDigits(escapeDigits) == "\"#\"" by { EscapeHash(); }
    assert IntToString(timeout) == "5" by { Numerals(); }
  }

  lemma GetVariableExample(name: string)
    requires name == "test"
    ensures GetVariable(name) + "\n" == "GET VARIABLE test\n"
  {
    ThreeWords("GET", "VARIABLE", name);
  }


  lemma ReceiveCharExample(timeout: int)
    requires timeout == 5
    ensures ReceiveChar(timeout) == Line(["RECEIVE", "CHAR", "5"])
  {
    assert IntToString(timeout) == "5" by { Numerals(); }
  }

  lemma ReceiveTextExample(timeout: int)
    requires timeout == 5
    ensures ReceiveText(timeout) == Line(["RECEIVE", "TEXT", "5"])
  {
    assert IntToString(timeout) == "5" by { Numerals(); }
  }

  lemma RecordFileExample(file: string, escapeDigits: seq<PhoneKey>, timeout: int, offsetSamples: int, silence: int,
                          words: seq<string>)
    requires file == "test" && escapeDigits == [Hash] && timeout == 10000 && offsetSamples == 0 && silence == 2
    requires words == ["RECORD", "FILE", "\"test\"", "wav", "\"#\"", "10000", "0", "1", "s=2"]
    ensures RecordFile(file, Some("wav"), Some(escapeDigits), Some(timeout), Some(offsetSamples), Some(true), Some(silence))
      == Line(words)
  {
    RecordFileAllSet(file, "wav", escapeDigits, timeout, offsetSamples, silence);
    RecordFileWords(file, escapeDigits, timeout, offsetSamples, silence, words);
  }

  /** With every option given, beeping and a non-zero silence, the line holds
      all nine words in the order `recordFile` writes them. */
  lemma RecordFileAllSet(file: string, format: string, escapeDigits: seq<PhoneKey>, timeout: int, offsetSamples: int,
                         silence: int)
    requires silence != 0
    ensures RecordFile(file, Some(format), Some(escapeDigits), Some(timeout), Some(offsetSamples), Some(true), Some(silence))
      == Line(["RECORD", "FILE", Quoted(file), format, EscapeDigits(escapeDigits), IntToString(timeout),
               IntToString(offsetSamples)] + (["1"] + ["s=" + IntToString(silence)]))
  {
  }

  lemma RecordFileWords(file: string, escapeDigits: seq<PhoneKey>, timeout: int, offsetSamples: int, silence: int,
                        words: seq<string>)
    requires file == "test" && escapeDigits == [Hash] && timeout == 10000 && offsetSamples == 0 && silence == 2
    requires words == ["RECORD", "FILE", "\"test\"", "wav", "\"#\"", "10000", "0", "1", "s=2"]
    ensures ["RECORD", "FILE", Quoted(file), "wav", EscapeDigits(escapeDigits), IntToString(timeout),
             IntToString(offsetSamples)] + (["1"] + ["s=" + IntToString(silence)]) == words
  {
    assert EscapeDigits(escapeDigits) == "\"#\"" by { EscapeHash(); }
    assert IntToString(timeout) == "10000" && IntToString(offsetSamples) == "0" && IntToString(silence) == "2" by { Numerals(); }
    assert Quoted(file) == "\"test\"";
    RecordFileConcat(["RECORD", "FILE", Quoted(file), "wav", EscapeDigits(escapeDigits), IntToString(timeout),
                      IntToString(offsetSamples)], "s=" + IntToString(silence));
  }

  lemma RecordFileConcat(head: seq<string>, last: string)
    requires head == ["RECORD", "FILE", "\"test\"", "wav", "\"#\"", "10000", "0"] && last == "s=2"
    ensures head + (["1"] + [last]) == ["RECORD", "FILE", "\"test\"", "wav", "\"#\"", "10000", "0", "1", "s=2"]
  {
  }

  lemma SayNumberExample(data: int, escapeDigits: seq<PhoneKey>)
    requires data == 1234 && escapeDigits == [Hash]
    ensures SayNumber(data, Some(escapeDigits), Some("a")) == Line(["SAY", "NUMBER", "1234", "\"#\"", "a"])
  {
    assert EscapeDigits(escapeDigits) == "\"#\"" by { EscapeHash(); }
    assert IntToString(data) == "1234" by { Numerals(); }
    assert ["SAY", "NUMBER", "1234", "\"#\""] + TextArg(Some("a")) == ["SAY", "NUMBER", "1234", "\"#\"", "a"];
  }

  lemma SayAlphaExample(escapeDigits: seq<PhoneKey>)
    requires escapeDigits == [Hash]
    ensures SayAlpha("1234", Some(escapeDigits)) == Line(["SAY", "ALPHA", "1234", "\"#\""])
  {
    assert EscapeDigits(escapeDigits) == "\"#\"" by { EscapeHash(); }
  }

  lemma SayPhoneticExample(data: string, escapeDigits: seq<PhoneKey>)
    requires data == "1234ABCD" && escapeDigits == [Hash]
    ensures SayPhonetic(data, Some(escapeDigits)) + "\n" == "SAY PHONETIC \"1234ABCD\" \"#\"\n"
  {
    var e := EscapeDigits(escapeDigits);
    assert e == "\"#\"" by { EscapeHash(); }
    ThreeWords("SAY", "PHONETIC", "");
    assert Line([e]) == e;
    assert Quoted(data) == "\"" + data + "\"";
    SayPhoneticSpelled(data, e);
  }

  lemma SayPhoneticSpelled(data: string, e: string)
    requires data == "1234ABCD" && e == "\"#\""
    ensures "SAY" + " " + "PHONETIC" + " " + ("\"" + data + "\"") + " " + e + "\n" == "SAY PHONETIC \"1234ABCD\" \"#\"\n"
  {
  }


  lemma SayDigitsExample(data: int, escapeDigits: seq<PhoneKey>)
    requires data == 1234 && escapeDigits == [Hash]
    ensures SayDigits(data, Some(escapeDigits)) == Line(["SAY", "DIGITS", "1234", "\"#\""])
  {
    assert EscapeDigits(escapeDigits) == "\"#\"" by { EscapeHash(); }
    assert IntToString(data) == "1234" by { Numerals(); }
  }

  lemma SendImageExample(name: string)
    requires name == "1234"
    ensures SendImage(name) + "\n" == "SEND IMAGE 1234\n"
  {
    ThreeWords("SEND", "IMAGE", name);
  }

  /** `setVariable` keeps a value with spaces as one quoted piece. */
  lemma SetVariableExample(name: string, value: string)
    requires name == "test" && value == "test test test"
    ensures SetVariable(name, value) + "\n" == "SET VARIABLE test \"test test test\"\n"
  {
    ThreeWords("SET", "VARIABLE", name);
    assert Quoted(value) == "\"" + value + "\"";
    SetVariableSpelled(name, value);
  }

  lemma SetVariableSpelled(name: string, value: string)
    requires name == "test" && value == "test test test"
    ensures "SET" + " " + "VARIABLE" + " " + name + " " + ("\"" + value + "\"") + "\n"
      == "SET VARIABLE test \"test test test\"\n"
  {
  }






  lemma SendTextExample(text: string)
    requires text == "1234"
    ensures SendText(text) + "\n" == "SEND TEXT \"1234\"\n"
  {
    ThreeWords("SEND", "TEXT", "");
    assert Quoted(text) == "\"" + text + "\"";
    SendTextSpelled(text);
  }

  lemma SendTextSpelled(text: string)
    requires text == "1234"
    ensures "SEND" + " " + "TEXT" + " " + ("\"" + text + "\"") + "\n" == "SEND TEXT \"1234\"\n"
  {
  }


  lemma WaitForDigitExample(timeout: int)
    requires timeout == 5000
    ensures WaitForDigit(Some(timeout)) == Line(["WAIT", "FOR", "DIGIT", "5000"])
  {
    assert IntToString(timeout) == "5000" by { Numerals(); }
  }

  lemma WaitForDigitForeverExample(timeout: int)
    requires timeout == -1
    ensures WaitForDigit(Some(timeout)) == Line(["WAIT", "FOR", "DIGIT", "-1"])
  {
    assert IntToString(timeout) == "-1" by { Numerals(); }
  }

  lemma HangupExample()
    ensures Hangup(None) == Line(["HANGUP"])
  {
  }

  lemma AsyncAgiBreakExample()
    ensures AsyncAgiBreak() + "\n" == "ASYNCAGI BREAK\n"
  {
    ThreeWords("ASYNCAGI", "BREAK", "");
    AsyncAgiBreakSpelled("ASYNCAGI", "BREAK");
  }

  lemma AsyncAgiBreakSpelled(a: string, b: string)
    requires a == "ASYNCAGI" && b == "BREAK"
    ensures a + " " + b + "\n" == "ASYNCAGI BREAK\n"
  {
  }



  lemma AnswerExample()
    ensures Answer() + "\n" == "ANSWER\n"
  {
  }


  lemma VerboseExample(message: string, level: Level)
    requires message == "good" && level == 2
    ensures Verbose(message, Some(level)) + "\n" == "VERBOSE \"good\" 2\n"
  {
    assert IntToString(level) == "2" by { Numerals(); }
    assert Line(["VERBOSE"]) == "VERBOSE" && Line([IntToString(level)]) == IntToString(level);
    assert Quoted(message) == "\"" + message + "\"";
    VerboseSpelled(message, IntToString(level));
  }

  lemma VerboseSpelled(message: string, level: string)
    requires message == "good" && level == "2"
    ensures "VERBOSE" + " " + ("\"" + message + "\"") + " " + level + "\n" == "VERBOSE \"good\" 2\n"
  {
  }


  lemma ExecExample(options: seq<string>)
    requires options == ["bang", "another"]
    ensures Exec("test", options) == Line(["EXEC", "test", "bang,another"])
  {
    assert Join(options, ',') == "bang,another";
  }

  lemma DialExample(timeout: int)
    requires timeout == 10
    ensures Dial("123", timeout, "A") == Line(["EXEC", "Dial", "123,10,A"])
  {
    assert IntToString(timeout) == "10" by { Numerals(); }
    assert Join(["123", "10", "A"], ',') == "123,10,A";
  }

  lemma EscapeHash()
    ensures EscapeDigits([Hash]) == "\"#\""
  {
    assert KeyTexts([Hash]) == ["#"];
  }

  /** The decimal renderings the examples use, digit by digit. */
  lemma Numerals()
    ensures IntToString(0) == "0" && IntToString(2) == "2" && IntToString(5) == "5" && IntToString(-1) == "-1"
    ensures IntToString(10) == "10" && IntToString(1234) == "1234"
    ensures IntToString(5000) == "5000" && IntToString(10000) == "10000"
  {
    assert NatToString(1) == "1";
    assert NatToString(10) == "10";
    assert NatToString(12) == "12";
    assert NatToString(123) == "123";
    assert NatToString(50) == "50";
    assert NatToString(500) == "500";
    assert NatToString(100) == "100";
    assert NatToString(1000) == "1000";
  }
}
