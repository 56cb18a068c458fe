# ts-agi session core, modelled in Dafny

ts-agi serves Asterisk AGI (Asterisk Gateway Interface) sessions over a duplex stream.
The peer first sends a handshake: `agi_<name>: <value>` lines ended by a blank line. Then it answers
each command with one line of the form `DDD result=TOKEN` or `DDD result=TOKEN(VALUE)`.
Any other non-empty line is a hangup. This project models three parts of the repository:

- **The session** (`src/base-context.ts`): the line buffer, the `init` → `waiting` state
  machine, the handshake variables and the single pending-command slot.
  - `BaseContext` is a class with the same fields as the source. Its methods are proved
    against the value-level specification in `Protocol`.
  - That specification is `AfterRead`, `AfterHandshake`, `AfterResponses` and `AfterSend`,
    built from the per-line steps `LineStep` and `LinesStep`.
  - Emitted events (`variables`, `response`, `hangup`) and callback invocations go, in order,
    into one event log. Text written to the stream goes into a `written` log.
- **The command builders** (`src/context.ts`): `Commands` has one function per command.
  Each returns the line that is handed to `sendCommand`. Each contract states the words the
  peer reads back when it splits that line at spaces, with each default filled in.
  JavaScript appends an optional trailing argument only when it is truthy, and the model
  does the same.
- **The middleware dispatcher** (`src/compose.ts`):
  - `Compose` makes the composition-time checks.
  - `Dispatched` and `RunScript` are the value-level meaning of `dispatch(i)`.
  - The `Dispatcher` class holds the closure's cursor, and its methods are proved against
    that meaning.
  - A handler is represented by what it does, as a script: it awaits its continuation (`Next`)
    or throws (`Throw`).

`Strings` gives the JavaScript string operations the source relies on:
`split`, `Array.prototype.join` (also how an array renders inside a template string),
`indexOf`, `includes`, `trim`, and `String(n)` for integers written out in full (see Left out). `Wrappers` gives `Option` and `Result`.

The session follows the code as written, including four behaviours a reader might not expect:

- `read` falls through from `init` to `waiting` and hands the WHOLE buffer to `readResponse`.
  So the handshake lines themselves are also read as response lines, and each of them
  emits a `hangup` (`AfterRead`, `ReadPreservesValid`).
- The handshake value is the text between the first and the SECOND colon of the line,
  not everything after the first colon (Findings, row 1).
- Once the buffer holds a newline, the unterminated piece after the last newline is also
  processed as a line, and then discarded (Findings, row 2).
- Response lines that arrive in the same chunk as the blank line are parsed as handshake lines
  too: an empty line, which defines the name `""`, then all but the last two pieces after the
  blank line (`HandshakeTrailingData`, `HandshakeTrailingName`). For example,
  `agi_a: 1\n\n200 result=0\n` in one chunk adds `""` = `""`; with two lines after the blank
  line, `200 result=0 (x:y)` becomes the variable `result=0 (x`. A handshake whose only blank
  line ends it gives the same variables however it is chunked (`HandshakeChunks`).

## Model

| member | source | states |
|---|---|---|
| BaseContext.BaseContext.constructor | src/base-context.ts:16-29 | A new session is in `init` with an empty buffer, no variables, no pending callback and nothing reported or written; it satisfies the session invariant. |
| BaseContext.BaseContext.Send | src/base-context.ts:68-71 | The callback replaces whatever was pending, the message is appended to what was written, nothing else changes, and the invariant is kept. |
| BaseContext.BaseContext.SendCommand | src/base-context.ts:40-53 | The command goes out as exactly one line, with one newline appended, and its callback becomes the pending one. |
| BaseContext.BaseContext.Read | src/base-context.ts:73-90 | One chunk takes the session to `AfterRead` of the old session, writes nothing, and keeps the session invariant. |
| BaseContext.BaseContext.ReadVariables | src/base-context.ts:92-101 | Every split piece but the last two, in order, writes its entry over the variables. Then exactly one `variables` event with the resulting map is emitted, and the state becomes `waiting`. |
| BaseContext.BaseContext.ReadResponse | src/base-context.ts:103-108 | Every newline-separated piece of the buffer, in order, goes through the one-line step. The pending slot and the appended events are those of the whole run of lines. |
| BaseContext.BaseContext.ReadResponseLine | src/base-context.ts:110-133 | An empty line changes nothing. A line that does not match appends one hangup. A matching line clears the pending slot, invokes the callback if there is one, and then appends the response. Nothing else changes. |
| Protocol.ParenValue | src/base-context.ts:114-126 | The greedy `\((.*)\)` group: it ends at the LAST `)` before any line terminator. An empty capture is no value (`if (value)`). |
| Protocol.ParseLine | src/base-context.ts:114-126 | A line matches exactly when it starts with three digits and ` result=`. The code is the value of those digits, below 1000. The result holds no `(` and is trimmed. A value, when present, is non-empty and on one line. |
| Protocol.CodeDigitsValue | src/base-context.ts:121 | `parseInt` of a zero-padded three-digit code gives back the code. |
| Protocol.ParenValueClosed | src/base-context.ts:114 | A single-line, non-empty value followed by `)` is captured whole. |
| Protocol.ParseResultText | src/base-context.ts:119-126 | From the text after the marker, the result token and the optional value are recovered. |
| Protocol.ParseLineParts | src/base-context.ts:114-126 | A line built from digits, the marker and a rest parses to the digits' value, the trimmed text before the first `(`, and the group after it. |
| Protocol.ParseFormatRoundTrip | src/base-context.ts:114-126 | Every well-formed response, written as `DDD result=TOKEN[(VALUE)]`, parses back to itself. |
| Protocol.ParseBareResult | src/base-context.ts:114-126 | `DDD result=TOKEN` gives that code and token, and no value. |
| Protocol.ParseSpacedValue | src/base-context.ts:114-126 | `DDD result=TOKEN (VALUE)`: the space is trimmed off the token and the value is the text in parentheses. |
| Protocol.ParseEmptyValue | src/base-context.ts:124-126 | `DDD result=TOKEN ()` has no value, because an empty capture is falsy. |
| Protocol.ParseExampleResult | src/__tests__/index.test.ts:124-130 | `200 result=0` parses to code 200, result `0`, no value. |
| Protocol.ParseExampleNegative | src/__tests__/index.test.ts:150-155 | `200 result=-1` parses to code 200, result `-1`. |
| Protocol.ParseExampleValue | src/__tests__/index.test.ts:106-118 | `200 result=0 (a value)` parses to code 200, result `0`, value `a value`. |
| Protocol.ParseExampleEmptyValue | src/base-context.ts:124-126 | `200 result=1 ()` parses to result `1` with no value. |
| Protocol.ParseExampleHangup | src/__tests__/index.test.ts:143-147 | `HANGUP` does not match, so it is a hangup line. |
| Protocol.VariableEntry | src/base-context.ts:95-97 | A handshake line's entry, as written: neither name nor value holds a colon, and the value is trimmed. |
| Protocol.SplitFirstTwo | src/base-context.ts:96 | The destructured `[name, value]` of `split(':')` are the text before the first colon and the text between the first and second colons. `value` is present exactly when the line has a colon. |
| Protocol.HandshakeLines | src/base-context.ts:94 | `split('\n').slice(0, -2)`: the split pieces without the last two, none when there are fewer than two. |
| Protocol.AddEntriesKeys | src/base-context.ts:95-98 | After the handshake, the variable names are the earlier ones plus every entry's name. |
| Protocol.AddVariablesKeys | src/base-context.ts:95-98 | The same property, stated on the handshake lines. |
| Protocol.AddEntriesLastWins | src/base-context.ts:95-98 | A name takes the value of its last entry. |
| Protocol.AddVariablesLastWins | src/base-context.ts:95-98 | A later line with the same name overwrites an earlier one. |
| Protocol.AddEntriesUntouched | src/base-context.ts:95-98 | A name that no entry names keeps its presence and its value. |
| Protocol.AddVariablesUntouched | src/base-context.ts:95-98 | The same property, stated on the handshake lines. |
| Protocol.ReadingOf | src/base-context.ts:110-118 | A line is blank exactly when empty, and matched exactly when it parses. A match carries the parsed response. |
| Protocol.LinesStepSnoc | src/base-context.ts:104-107 | One more line is processed from the slot the earlier lines left. Its events follow theirs. |
| Protocol.ReadingStepEvents | src/base-context.ts:110-133 | One line yields one response event if it matches, one hangup if it does not, and nothing if it is empty. A match clears the slot and invokes the pending callback once, right before its response. A hangup leaves the slot alone. No `variables` event is emitted. |
| Protocol.ReadingStepCounts | src/base-context.ts:110-133 | One line: a match gives one response and clears the slot; a non-match gives one hangup and leaves the slot alone. The pending callback is resolved exactly once when the line matches, and not at all otherwise. |
| Protocol.ReadingsStepEvents | src/base-context.ts:103-133 | For a run of lines: the responses emitted are exactly the matched ones, in order, and there is one hangup per non-matching line. A pending callback is invoked exactly once, with the FIRST response, or stays pending if nothing matches. Each invocation is immediately followed by its response. |
| Protocol.ReadingsStepCounts | src/base-context.ts:103-133 | For a run of lines: the responses are the matched ones in order, there is one hangup per non-matching line, and a pending callback is resolved once with the first response or stays pending. |
| Protocol.ReadingsStepResponses | src/base-context.ts:103-133 | For a run of lines, the responses emitted are exactly the matched responses, in line order. |
| Protocol.ReadingsStepHangups | src/base-context.ts:103-133 | For a run of lines, the hangups emitted are one per line that does not match, in order. |
| Protocol.ReadingsStepPending | src/base-context.ts:103-133 | After a run of lines the slot is empty if any line matched, and otherwise is what it was. |
| Protocol.ReadingsStepResolutions | src/base-context.ts:103-133 | A callback pending before a run of lines is resolved once, with the first matched response, when there is one; otherwise it is never resolved. |
| Protocol.ReadingsStepOrder | src/base-context.ts:103-133 | A run of lines emits no `variables` event, and each resolution is immediately followed by its response. |
| Protocol.LinesStepEvents | src/base-context.ts:103-133 | The same properties, stated on the lines of a buffer. |
| Protocol.InitialValid | src/base-context.ts:16-22 | A new session satisfies the session invariant. |
| Protocol.ReadPreservesValid | src/base-context.ts:73-101 | A read keeps the invariant: nothing is reported before the handshake, then exactly one leading `variables` event, and no complete line is left buffered. The state never returns to `init`. The variables never change after the handshake. Events are only appended. |
| Protocol.HandshakeReported | src/base-context.ts:92-101 | Parsing the handshake from a fresh session reports exactly one event, `variables`, carrying the map. |
| Protocol.ResponsesReported | src/base-context.ts:103-133 | Processing the buffer keeps the variables and every earlier event. It adds no `variables` event, and each callback invocation is followed by its response. |
| Protocol.EventsReported | src/base-context.ts:103-133 | Appending a run of events that has no `variables` event and keeps each invocation before its response preserves what the session has reported. |
| Protocol.TerminatorHasNewline | src/base-context.ts:76-86 | A buffer holding `\n\n` holds `\n`, so the fall-through to `waiting` always reads the buffer. |
| Protocol.ReadBeforeHandshake | src/base-context.ts:76-79 | Before the blank line arrives, a read only buffers the chunk. |
| Protocol.ReadWhileWaiting | src/base-context.ts:82-89 | In `waiting`, a chunk that completes no line is only buffered. Otherwise the buffer is emptied, and the new events are the parsed responses, one hangup per non-matching line, and at most one invocation: of the pending callback, with the first response. |
| Protocol.WaitingChunks | src/base-context.ts:82-89 | In `waiting`, any run of chunks leaves the state and the variables alone. |
| Protocol.HandshakePrefix | src/base-context.ts:77 | A prefix of a handshake text holds `\n\n` only when it is the whole text. |
| Protocol.OneChunkVariables | src/base-context.ts:73-101 | A first chunk holding `\n\n` takes a fresh session to `waiting`, with the variables of its handshake lines. |
| Protocol.HandshakeChunksFrom | src/base-context.ts:73-101 | The rest of a handshake text, fed in any chunks to a session still in `init`, ends in `waiting` with the variables of the whole text's handshake lines. |
| Protocol.HandshakeChunks | src/base-context.ts:73-101 | A handshake whose only blank line is at its end gives the same variables, and `waiting`, however it is cut into chunks. |
| Protocol.HandshakeTwoChunks | src/base-context.ts:73-101 | Such a handshake cut in two at any point gives the variables it gives in one chunk. |
| Protocol.HandshakeLinesTrailing | src/base-context.ts:94 | Text with a newline after the blank line adds to the parsed lines an empty line and all but the last two pieces of that text. |
| Protocol.HandshakeTrailingData | src/base-context.ts:73-101 | As written, text with a newline in the chunk that completes the handshake is parsed as handshake lines too, on top of the variables the same text sent as a later chunk leaves. |
| Protocol.HandshakeTrailingName | src/base-context.ts:73-101 | As written, a one-line handshake followed in the same chunk by a line defines the name `""`; sent as two chunks it does not. |
| Protocol.EmptyLineNamed | src/base-context.ts:95-98 | Lines led by an empty line define the name `""`. |
| Protocol.OneLineHandshake | src/base-context.ts:73-101 | A one-line handshake defines that line's entry alone, whatever chunk follows it. |
| Protocol.AddVariablesAppend | src/base-context.ts:95-98 | Parsing two runs of lines one after the other is parsing them together. |
| Protocol.AddVariablesSnoc | src/base-context.ts:95-98 | The last line's entry is written over what the earlier lines left. |
| Protocol.HandshakeLinesOf | src/base-context.ts:94 | A text ended by the blank line gives exactly its newline-separated lines. |
| Protocol.NamedEntry | src/base-context.ts:96-97 | A line with more than four characters before its first colon has a non-empty name. |
| Protocol.EmptyLineEntry | src/base-context.ts:96-97 | The empty line writes `""` under the name `""`. |
| Strings.Split | src/base-context.ts:104 | `split` gives at least one piece, and no piece holds the separator. |
| Strings.JoinSplit | src/base-context.ts:104 | Joining the pieces of a split gives back the string. |
| Strings.SplitJoin | src/context.ts:148-150 | Splitting a join of separator-free pieces gives back the pieces. |
| Strings.SplitNoSeparator | src/base-context.ts:104 | A string without the separator splits into itself alone. |
| Strings.SplitAtSeparator | src/base-context.ts:104 | A split distributes over a separator. |
| Strings.SplitAppend | src/base-context.ts:83-86 | Splitting `a + b` gives the pieces of `a` but its last, then the split of that last piece continued by `b`. |
| Strings.JoinAppend | src/context.ts:148-150 | Joining two non-empty lists puts exactly one separator between their joins. |
| Strings.IndexOf | src/base-context.ts:96 | The first occurrence of the character, or the length when it is absent. |
| Strings.IndexOfAt | src/base-context.ts:96 | An index with the character there and none before it is `indexOf`. |
| Strings.SplitFirst | src/base-context.ts:96 | The first piece of a split is the text before the first separator. |
| Strings.LastIndexOf | src/base-context.ts:114 | The last occurrence of the character, or -1. |
| Strings.Trim | src/base-context.ts:97 | Neither end of the result is whitespace. |
| Strings.TrimFrames | src/base-context.ts:97 | The string is the trimmed text with whitespace on both sides. |
| Strings.TrimTrimmed | src/base-context.ts:122 | Trimming leaves a trimmed string alone. |
| Strings.TrimOmits | src/base-context.ts:97 | Trimming never introduces a character. |
| Strings.TrimPadded | src/base-context.ts:122 | Trailing whitespace after a trimmed, non-empty string is all that `trim` removes. |
| Strings.ThreeDigits | src/base-context.ts:121 | Three digits have their positional value, below 1000. |
| Strings.NatToString | src/context.ts:243 | A natural number renders as digits without a leading zero. |
| Strings.IntToString | src/context.ts:243 | A rendered integer holds no space, comma or newline. |
| Strings.NatToStringRoundTrip | src/context.ts:243 | Reading the digits back gives the number. |
| Strings.IntToStringRoundTrip | src/context.ts:243 | Integers render as an optional minus sign and digits without a leading zero, and read back to themselves. |
| Commands.KeyText | src/context.ts:78 | A phone key renders as one character, which is not a space, comma, quote or newline. |
| Commands.KeyTextRoundTrip | src/context.ts:78 | Every key is read back from its one-character word, so no two keys render alike. |
| Commands.KeyTextsInjective | src/context.ts:78 | Distinct key lists render as distinct word lists. |
| Commands.EscapeDigitsInjective | src/context.ts:164 | The escape word determines the keys: distinct key lists give distinct words. |
| Commands.Quoted | src/context.ts:261 | The text inside double quotes. It holds a space only if the text does. |
| Commands.EscapeDigits | src/context.ts:164 | `"${escapeDigits}"`: the keys comma-joined inside quotes, as JavaScript renders an array. The comma-separated pieces between the quotes are the keys' words, no keys give `""`, and the word holds no space. |
| Commands.IntArg | src/context.ts:82-84 | At most one word, present exactly when the number is given and non-zero. The word is the number's rendering and holds no space. |
| Commands.TextArg | src/context.ts:172-174 | At most one word, present exactly when the text is given and non-empty. The word is the text. |
| Commands.KeyArg | src/context.ts:79-81 | At most one word, present exactly when the key is given and is not the key `0`. The word holds no space and names the key back. |
| Commands.ControlEscapeText | src/context.ts:71 | The default keys of `controlStreamFile` render as `"1,2,3,4,5,6,7,8,0"`. |
| Commands.ControlEscapeWord | src/context.ts:71-78 | The escape word is the given keys, or the default keys when none are given. It holds no space. |
| Commands.Answer | src/context.ts:14-16 | The peer reads `ANSWER`. |
| Commands.AsyncAgiBreak | src/context.ts:24-26 | The peer reads `ASYNCAGI BREAK`. |
| Commands.ChannelStatus | src/context.ts:48-50 | The peer reads `CHANNEL STATUS` and the channel. |
| Commands.ControlStreamFile | src/context.ts:69-86 | The peer reads the file, the escape keys, the skip time (default 3000), the fast-forward key (default `#`) and the rewind key (default `*`). Then the pause key and the offset follow, each only when truthy, in that order. |
| Commands.DatabaseDel | src/context.ts:98-100 | The peer reads `DATABASE DEL`, the family and the key. |
| Commands.DatabaseDelTree | src/context.ts:112-114 | The peer reads `DATABASE DELTREE`, the family and the key tree. |
| Commands.DatabaseGet | src/context.ts:126-128 | The peer reads `DATABASE GET`, the family and the key. |
| Commands.DatabasePut | src/context.ts:140-142 | The peer reads `DATABASE PUT`, the family, the key and the value. |
| Commands.Exec | src/context.ts:148-150 | The options are comma-joined into the third word, and each is read back from it. With no options the line ends in a space. |
| Commands.GetData | src/context.ts:157-159 | The peer reads `GET DATA`, the file, the timeout and the maximum digit count. |
| Commands.GetFullVariable | src/context.ts:160-162 | The peer reads `GET FULL VARIABLE`, the name, and the channel (empty by default). |
| Commands.GetOption | src/context.ts:163-165 | The peer reads `GET OPTION`, the file, the escape keys (none by default) and the timeout (5000 by default). |
| Commands.GetVariable | src/context.ts:166-168 | The peer reads `GET VARIABLE` and the name. |
| Commands.GoSub | src/context.ts:169-171 | The peer reads `GOSUB`, the context, extension, priority and argument (empty by default). |
| Commands.Hangup | src/context.ts:172-174 | The peer reads `HANGUP`, followed by the channel only when one is named. |
| Commands.Noop | src/context.ts:175-177 | The peer reads `NOOP`. |
| Commands.ReceiveChar | src/context.ts:178-180 | The peer reads `RECEIVE CHAR` and the timeout. |
| Commands.ReceiveText | src/context.ts:181-183 | The peer reads `RECEIVE TEXT` and the timeout. |
| Commands.RecordFile | src/context.ts:184-202 | The peer reads the quoted file, the format (`wav`), the escape keys (none), the timeout (-1) and the offset (0). Then `1` follows when a beep is asked for, and `s=` with the silence when it is truthy, in that order. |
| Commands.RecordFileAllSet | src/context.ts:184-202 | With every option given, a beep and a non-zero silence, the line is nine words in order: `RECORD`, `FILE`, the quoted file, the format, the escape keys, the timeout, the offset, `1`, and `s=` followed by the silence as one word. |
| Commands.RecordFileQuoted | src/context.ts:184-202 | Whatever the file name holds, the words between `RECORD FILE` and the format join back to the quoted name. |
| Commands.SayAlpha | src/context.ts:203-205 | The peer reads `SAY ALPHA`, the text and the escape keys. |
| Commands.SayDigits | src/context.ts:219-221 | The peer reads `SAY DIGITS`, the number and the escape keys. |
| Commands.SayNumber | src/context.ts:222-228 | The peer reads `SAY NUMBER`, the number and the escape keys, then the gender only when non-empty. |
| Commands.SayPhonetic | src/context.ts:229-231 | The line is `SAY PHONETIC`, the quoted text whatever it holds, and the escape keys. The words between `SAY PHONETIC` and the keys join back to the quoted text, which is one word when it has no space. |
| Commands.SendImage | src/context.ts:235-237 | The peer reads `SEND IMAGE` and the name. |
| Commands.SendText | src/context.ts:238-240 | The line is `SEND TEXT` and the quoted text, whatever it holds. The words after `SEND TEXT` join back to the quoted text, which is one word when it has no space. |
| Commands.SetAutoHangup | src/context.ts:242-244 | The peer reads `SET AUTOHANGUP` and the time. |
| Commands.SetCallerId | src/context.ts:245-247 | The peer reads `SET CALLERID` and the caller id. |
| Commands.SetContext | src/context.ts:248-250 | The peer reads `SET CONTEXT` and the context. |
| Commands.SetExtension | src/context.ts:251-253 | The peer reads `SET EXTENSION` and the extension. |
| Commands.SetMusic | src/context.ts:254-256 | The peer reads `SET MUSIC`, `on` or `off`, and the class (`default` by default). |
| Commands.SetPriority | src/context.ts:257-259 | The peer reads `SET PRIORITY` and the priority. |
| Commands.SetVariable | src/context.ts:260-262 | The line is `SET VARIABLE`, the name and the quoted value, whatever the value holds. With a name without spaces, the words after the name join back to the quoted value, which is one word when it has no space. |
| Commands.StreamFile | src/context.ts:263-269 | The line is `STREAM FILE`, the quoted file whatever it holds, the escape keys, then the offset only when truthy. The words between `STREAM FILE` and the keys join back to the quoted file. |
| Commands.Verbose | src/context.ts:271-277 | The line is `VERBOSE`, the quoted message whatever it holds, then the level when given. The words between `VERBOSE` and the level join back to the quoted message. |
| Commands.QuotedLine | src/context.ts:261 | A quoted value between fixed words is one piece of the line: the words between the fixed ones join back to it, and it is one word when it has no space. |
| Commands.LineAround | src/context.ts:261 | A word between fixed words appears verbatim in the line, and splitting reads back the fixed words around its own pieces. |
| Commands.WaitForDigit | src/context.ts:279-281 | The peer reads `WAIT FOR DIGIT` and the timeout (10000 by default). |
| Commands.Dial | src/context.ts:283-285 | `dial` is `exec` of `Dial` with the target, the timeout and the parameters as three comma-joined options. |
| Commands.WireLine | src/base-context.ts:43 | A command without a newline reaches the peer as exactly one line. |
| Commands.SetVariableExample | src/__tests__/index.test.ts:191-198 | `SET VARIABLE test "test test test"` and the newline, the value with spaces kept as one quoted piece. |
| Commands.SetAutoHangupExample | src/__tests__/index.test.ts:200-205 | `SET AUTOHANGUP 10` |
| Commands.SetCallerIdExample | src/__tests__/index.test.ts:207-212 | `SET CALLERID 246` and the newline, character for character. |
| Commands.SetContextExample | src/__tests__/index.test.ts:214-219 | `SET CONTEXT outbound` and the newline, character for character. |
| Commands.SetExtensionExample | src/__tests__/index.test.ts:221-226 | `SET EXTENSION 245` and the newline, character for character. |
| Commands.SetPriorityExample | src/__tests__/index.test.ts:228-233 | `SET PRIORITY 2` and the newline, character for character. |
| Commands.SetMusicExample | src/__tests__/index.test.ts:235-240 | `SET MUSIC on default`, with the default class. |
| Commands.ChannelStatusExample | src/__tests__/index.test.ts:242-247 | `CHANNEL STATUS test` and the newline, character for character. |
| Commands.GetFullVariableExample | src/__tests__/index.test.ts:249-256 | `GET FULL VARIABLE test test` and the newline, character for character. |
| Commands.GetDataExample | src/__tests__/index.test.ts:258-263 | `GET DATA test 10 5` |
| Commands.GetOptionExample | src/__tests__/index.test.ts:265-270 | `GET OPTION test "#" 5` |
| Commands.GetVariableExample | src/__tests__/index.test.ts:272-277 | `GET VARIABLE test` and the newline, character for character. |
| Commands.ReceiveCharExample | src/__tests__/index.test.ts:279-284 | `RECEIVE CHAR 5` |
| Commands.ReceiveTextExample | src/__tests__/index.test.ts:286-291 | `RECEIVE TEXT 5` |
| Commands.RecordFileExample | src/__tests__/index.test.ts:301-316 | `RECORD FILE "test" wav "#" 10000 0 1 s=2` |
| Commands.SayNumberExample | src/__tests__/index.test.ts:318-323 | `SAY NUMBER 1234 "#" a` |
| Commands.SayAlphaExample | src/__tests__/index.test.ts:325-330 | `SAY ALPHA 1234 "#"` |
| Commands.SayPhoneticExample | src/__tests__/index.test.ts:362-367 | `SAY PHONETIC "1234ABCD" "#"` and the newline, character for character. |
| Commands.DialExample | src/__tests__/index.test.ts:369-374 | `EXEC Dial 123,10,A` |
| Commands.SayDigitsExample | src/__tests__/index.test.ts:376-381 | `SAY DIGITS 1234 "#"` |
| Commands.SendImageExample | src/__tests__/index.test.ts:383-388 | `SEND IMAGE 1234` and the newline, character for character. |
| Commands.SendTextExample | src/__tests__/index.test.ts:390-395 | `SEND TEXT "1234"` and the newline, character for character. |
| Commands.WaitForDigitExample | src/__tests__/index.test.ts:398-401 | `WAIT FOR DIGIT 5000` |
| Commands.WaitForDigitForeverExample | src/__tests__/index.test.ts:403-406 | `WAIT FOR DIGIT -1` |
| Commands.HangupExample | src/__tests__/index.test.ts:409-413 | `HANGUP` alone when no channel is named. |
| Commands.AsyncAgiBreakExample | src/__tests__/index.test.ts:416-420 | `ASYNCAGI BREAK` and the newline, character for character. |
| Commands.AnswerExample | src/__tests__/index.test.ts:423-427 | `ANSWER` and the newline, character for character. |
| Commands.VerboseExample | src/__tests__/index.test.ts:430-434 | `VERBOSE "good" 2` and the newline, character for character. |
| Commands.ExecExample | src/__tests__/index.test.ts:70-75 | `EXEC test bang,another` |
| Middleware.Compose | src/compose.ts:4-12 | Composition succeeds exactly when given an array of functions, and keeps them in order. A non-array fails with `Middleware stack must be an array!`. A non-function element fails with `Middleware must be composed of functions!`. |
| Middleware.DispatchRuns | src/compose.ts:15-32 | A dispatch at or before the cursor is refused with `next() called multiple times`, runs nothing and leaves the cursor alone. Otherwise handlers `i`, `i+1`, … run in order, each once, never past the terminal, and the cursor only moves forward. |
| Middleware.ScriptRuns | src/compose.ts:27-31 | A handler's continuation reaches later handlers only on its first call. The handlers its script runs are consecutive from just past the cursor. |
| Middleware.NoNextStops | src/compose.ts:24-31 | A handler that never calls its continuation ends the chain. It alone runs, and it resolves, or rejects with its own error. |
| Middleware.NextTwice | src/compose.ts:16-18 | A handler that calls its continuation twice gets `next() called multiple times` from the second call, once the first call succeeded. If the first call rejected, the handler rejects with that error. |
| Middleware.ThrowRejects | src/compose.ts:27-30 | A handler that throws before continuing rejects with its error, and only it ran. |
| Middleware.EmptyResolves | src/compose.ts:20-26 | With no handlers and no terminal, the composed function resolves at once. |
| Middleware.PassThrough | src/compose.ts:15-32 | Handlers that only await their continuation run in order and hand the outcome of the next dispatch straight back. |
| Middleware.AllPassThrough | src/compose.ts:13-34 | With pass-through handlers and a resolving terminal, every handler runs in order, then the terminal, and the invocation resolves. |
| Middleware.ThrowPropagates | src/compose.ts:27-33 | A throw deep in a pass-through chain rejects the whole invocation with its error, after running every handler up to it. |
| Middleware.Dispatcher.constructor | src/compose.ts:13-14 | A fresh invocation starts its cursor at -1, with nothing run. |
| Middleware.Dispatcher.Dispatch | src/compose.ts:15-32 | `dispatch(i)` settles, moves the cursor and runs handlers exactly as `Dispatched` says. |
| Middleware.Dispatcher.Handle | src/compose.ts:27-31 | A handler running its script with `dispatch(i + 1)` as continuation settles and moves the cursor exactly as `RunScript` says. |
| Middleware.Invoke | src/compose.ts:13-34 | Each call of the composed function starts from a fresh cursor and behaves as `dispatch(0)` from -1, so separate calls never see each other. |
| Corrections.ColonValueTruncated | src/base-context.ts:94-97 | As written, a value that holds a colon keeps only the text before that colon. |
| Corrections.ColonValueExample | src/base-context.ts:96-97 | As written, `agi_request: agi://host/script` gives the value `agi`. |
| Corrections.VariableEntryReadsBack | src/base-context.ts:95-97 | As written, `agi_<name>: <value>` gives back the name and value whenever neither holds a colon. |
| Corrections.VariableEntryFixed | src/base-context.ts:96-97 | Corrected entry: the name holds no colon and the value is trimmed. |
| Corrections.VariableEntryFixedReadsBack | src/base-context.ts:95-97 | Corrected, `agi_<name>: <value>` gives back the name and the value, whatever the value holds. |
| Corrections.ColonValueFixedExample | src/base-context.ts:96-97 | Corrected, `agi_request: agi://host/script` keeps the whole URL. |
| Corrections.VariableEntryFixedAgrees | src/base-context.ts:96-97 | The correction agrees with the code on every line with exactly one colon. |
| Corrections.VariableEntryFixedAgreesBare | src/base-context.ts:96-97 | The correction agrees with the code on every line without a colon. |
| Corrections.TrimLeading | src/base-context.ts:97 | Leading whitespace before a trimmed string is all that `trim` removes. |
| Corrections.CutResponseLost | src/base-context.ts:73-90 | As written, a response line whose chunk ends partway through it is read as two lines. If neither half matches, the response is lost and two hangups are emitted instead. In one chunk the same bytes give both responses. |
| Corrections.CutResponseExample | src/base-context.ts:82-89 | As written, `200 result=1\n2` then `00 result=0\n` emits one response and two hangups, whereas one chunk gives two responses. |
| Corrections.CutHalves | src/base-context.ts:114 | Neither `2` nor `00 result=0` matches the response grammar. |
| Corrections.ParseExampleResultOne | src/__tests__/index.test.ts:131-137 | `200 result=1` parses to code 200, result `1`. |
| Corrections.ReadWaiting | src/base-context.ts:82-89 | In `waiting`, a buffer with a newline is processed in full and emptied. |
| Corrections.ReadCut | src/base-context.ts:82-89 | One line and the start of the next, in one chunk: the start is processed as a line of its own. |
| Corrections.ReadWhole | src/base-context.ts:82-89 | Two response lines in one chunk emit both responses, in order. |
| Corrections.ReadTwo | src/base-context.ts:104-107 | Two lines are processed one after the other, the second from the slot the first left. |
| Corrections.ReadTwoResponses | src/base-context.ts:104-107 | Two response lines read with nothing pending emit exactly their two responses, in order. |
| Corrections.EmptyPieceSkipped | src/base-context.ts:111-113 | An empty piece, like the one after a final newline, changes neither the slot nor the events. |
| Corrections.ReadThree | src/base-context.ts:104-111 | Two response lines and the empty piece after the final newline emit exactly the two responses. |
| Corrections.AfterReadKeepingTail | src/base-context.ts:82-89 | Corrected read for the `waiting` phase only (the handshake is not re-modelled): the state and the variables are kept, no newline stays buffered, and input without a newline is only buffered. |
| Corrections.ChunkingIrrelevant | src/base-context.ts:73-90 | Corrected, reading `a` and then `b` is the same as reading `a + b`: how the stream is chunked does not matter. |
| Corrections.KeepTailAppend | src/base-context.ts:82-89 | Buffering a piece and then continuing it is the same as processing all the pieces at once. |
| Corrections.LinesStepAppend | src/base-context.ts:104-107 | Processing two runs of lines one after the other is processing them together. |
| Corrections.ReadingsStepAppend | src/base-context.ts:104-107 | The same property, stated on readings. |
| Corrections.KeepingTailAgrees | src/base-context.ts:82-89 | The correction agrees with the code whenever the buffer ends in a newline. |
| Corrections.Unterminated | src/base-context.ts:83 | Input without a newline is one unterminated piece. |
| Corrections.EndsEmpty | src/base-context.ts:104 | After a final newline, `split` yields one empty last piece. |

## Left out

- Logging through `debug` and the `on` overload that logs (src/base-context.ts:30-38) are not modelled. They have no effect on the session.
- `onVariables` and `end` (src/base-context.ts:54-67) are not modelled. They wrap an event or the stream's `end` in a promise.
- Relaying the stream's `error` and `close` events is not modelled. The model has no stream faults.
- Event listeners are not modelled. The emitted events and the callback invocations are recorded, in order, in one log. A callback is the `CommandId` parked in the slot, and invoking it is a `Resolved` event.
- Byte chunks are not modelled. The stream is the sequence of `read` calls, and bytes reach `read` already decoded as text (`data.toString()`).
- BaseContext.BaseContext.SendCommand: the `err` branch (src/base-context.ts:44-46) is not modelled. `readResponseLine` always calls the callback with a `null` error, so the branch cannot be reached.
- Promises are not modelled: a command's result is its `Resolved` event.
- In the dispatcher, promise scheduling is left out. A handler is modelled as a script of awaited continuations and throws, run to completion.
- Middleware.Dispatcher.Handle: a handler that calls its continuation without awaiting it, or from a later tick, is not modelled.
- Values other than arrays and functions passed to `compose` are modelled as one kind, "other".
- The context value handed to the handlers is not modelled, because the dispatcher never reads it.
- `sayDate`, `sayTime` and `sayDateTime` are not modelled. They render a `Date` through floating-point division and `toFixed`.
- Numeric arguments are integers. Non-integer numbers, `NaN` and infinities, with their JavaScript renderings, are not modelled.
- The command builders' contracts state the words the peer reads only when the unquoted free-text arguments (names, channels, families, unquoted file names) hold no space. A space inside such an argument makes extra words, exactly as in the source, but no contract describes that case. Quoted arguments are covered whatever they hold.
- Strings.IntToString: writes every digit of any integer. JavaScript's `String(n)` switches to exponent notation from 10^21 on (`String(1e21)` is `1e+21`), and a number is exact only up to 2^53, so the rendering matches the source only for integers of magnitude below 2^53.
- Handshake names such as `__proto__`, which a plain JavaScript object treats specially, are not modelled. `variables` is a map.
- src/agi.ts (the server) and src/interfaces.ts are not part of this model. The phone keys of `interfaces.ts` are the `PhoneKey` datatype.
- Commands.StreamFile: the repository's test with twelve escape keys (src/__tests__/index.test.ts:293-300) is not restated as a concrete example. The general contract covers it.
- The handshake test (src/__tests__/index.test.ts:47-57) is not restated as a concrete example. Protocol.AddVariablesLastWins and Corrections.VariableEntryReadsBack cover it in general.

## Findings

| source | as written | input that shows it | evidently intended | confidence | as-written member | corrected member |
|---|---|---|---|---|---|---|
| src/base-context.ts:96-97 | `el.split(':')` keeps only the piece between the first and second colons as the value | the handshake line `agi_request: agi://host/script` gives `request` = `agi` | the value is everything after the first colon, trimmed (`agi://host/script`) | not executed | Corrections.ColonValueTruncated | Corrections.VariableEntryFixedReadsBack |
| src/base-context.ts:82-89 | once the buffer holds a newline, the whole buffer is processed, including the unterminated piece after the last newline, and then it is emptied | in `waiting`, the chunk `200 result=1\n2` then the chunk `00 result=0\n` emit `response` (result `1`), `hangup`, `hangup`; as one chunk they emit two responses | only complete lines are processed and the unterminated piece stays buffered, so chunking does not change what is read | not executed | Corrections.CutResponseLost | Corrections.ChunkingIrrelevant |
