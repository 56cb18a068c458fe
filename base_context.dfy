/**
 * `BaseContext`: one AGI session over a duplex stream. The stream's `data`
 * handler calls `Read` with each chunk; `Send` writes a command and parks its
 * callback in the single pending slot. Emitted events and callback invocations
 * are recorded, in order, in `events`; what is written to the stream in
 * `written`.
 */
module BaseContext {
  import opened Wrappers
  import opened Strings
  import opened Protocol

  class BaseContext {
    var variables: map<string, string>
    var state: State
    var buffer: string
    var pending: Option<CommandId>
    var events: seq<Event>
    var written: seq<string>

    /** The session as a value, for the specification functions of `Protocol`. */
    ghost function Snapshot(): Session
      reads this
    {
      Session(state, buffer, variables, pending, events)
    }

    ghost predicate Valid()
      reads this
    {
      Protocol.Valid(Snapshot())
    }

    constructor ()
      ensures Snapshot() == Initial() && written == []
      ensures Valid()
    {
      variables := map[];
      state := Init;
      buffer := "";
      pending := None;
      events := [];
      written := [];
      InitialValid();
    }

    /** `send(msg, callback)`: park the callback, overwriting any earlier one, and write. */
    method Send(msg: string, callback: CommandId)
      modifies this
      ensures Snapshot() == AfterSend(old(Snapshot()), callback)
      ensures written == old(written) + [msg]
      ensures old(Valid()) ==> Valid()
    {
      pending := Some(callback);
      written := written + [msg];
    }

    /** `sendCommand(command)`: the command goes out as one line. */
    method SendCommand(command: string, callback: CommandId)
      modifies this
      ensures Snapshot() == AfterSend(old(Snapshot()), callback)
      ensures written == old(written) + [command + "\n"]
      ensures old(Valid()) ==> Valid()
    {
      Send(command + "\n", callback);
    }

    /**
     * `read(data)`: buffer the chunk; in `init`, wait for the blank line, then
     * parse the handshake and fall through to `waiting`; process the whole
     * buffer as response lines once it holds a newline, and empty it.
     */
    method Read(data: string)
      modifies this
      ensures Snapshot() == AfterRead(old(Snapshot()), data)
      ensures written == old(written)
      ensures old(Valid()) ==> Valid()
    {
      if Valid() {
        ReadPreservesValid(Snapshot(), data);
      }
      buffer := buffer + data;
      if state == Init {
        if !Contains(buffer, Terminator) {
          return;
        }
        ReadVariables(buffer);
      }
      if '\n' !in buffer {
        return;
      }
      ReadResponse(buffer);
      buffer := "";
    }

    /** `readVariables(data)`: one entry per handshake line, then the `variables`
        event and the switch to `waiting`. */
    method ReadVariables(data: string)
      modifies this
      ensures Snapshot() == AfterHandshake(old(Snapshot()), data)
      ensures written == old(written)
    {
      var lines := HandshakeLines(data);
      var es := Entries(lines);
      ghost var vars0 := variables;
      var i := 0;
      while i < |lines|
        invariant 0 <= i <= |lines|
        invariant variables == AddEntries(vars0, es[..i])
        invariant unchanged(`state, `buffer, `pending, `events, `written)
      {
        AddEntriesSnoc(vars0, es, i);
        variables := variables[es[i].0 := es[i].1];
        i := i + 1;
      }
      assert es[..|lines|] == es;
      events := events + [Variables(variables)];
      state := Waiting;
    }

    /** `readResponse(data)`: every piece of the buffer, in order, as a line. */
    method ReadResponse(data: string)
      modifies this
      ensures Snapshot() == AfterResponses(old(Snapshot()), data)
      ensures written == old(written)
    {
      var lines := Split(data, '\n');
      var i := 0;
      while i < |lines|
        invariant 0 <= i <= |lines|
        invariant var st := LinesStep(old(pending), lines[..i]);
          pending == st.pending && events == old(events) + st.events
        invariant state == old(state) && buffer == old(buffer) && variables == old(variables)
        invariant written == old(written)
      {
        LinesStepSnoc(old(pending), lines[..i], lines[i]);
        assert lines[..i + 1] == lines[..i] + [lines[i]];
        ReadResponseLine(lines[i]);
        i := i + 1;
      }
      assert lines[..|lines|] == lines;
    }

    /**
     * `readResponseLine(line)`: skip an empty line; a line that does not match
     * is a hangup; otherwise hand the response to the pending callback, clearing
     * the slot first, then emit it.
     */
    method ReadResponseLine(line: string)
      modifies this
      ensures var st := LineStep(old(pending), line);
        pending == st.pending && events == old(events) + st.events
      ensures state == old(state) && buffer == old(buffer) && variables == old(variables)
      ensures written == old(written)
    {
      if line == "" {
        return;
      }
      var parsed := ParseLine(line);
      if parsed.None? {
        events := events + [Hangup];
        return;
      }
      var response := parsed.value;
      if pending.Some? {
        var callback := pending.value;
        pending := None;
        events := events + [Resolved(callback, response)];
      }
      events := events + [Responded(response)];
    }
  }
}
