/**
 * `compose(middlewares)`: the onion dispatcher. Composition checks that it was
 * given an array of functions; each invocation of the composed function starts
 * a cursor at -1 and calls `dispatch(0)`, and `dispatch(i)` runs handler `i`
 * with a continuation that calls `dispatch(i + 1)`.
 *
 * A handler is given by what it does, as a script: `Next` awaits its
 * continuation (a rejection of the continuation rejects the handler too) and
 * `Throw(m)` throws; a handler that reaches the end of its script resolves.
 */
module Middleware {
  import opened Wrappers

  datatype Action = Next | Throw(message: string)

  type Script = seq<Action>

  /** How a dispatch step's promise settles. */
  datatype Outcome = Resolved | Rejected(message: string)

  /** What one dispatch step did: how it settled, where the cursor ended, and the
      indices of the handlers it ran, in order of their start. */
  datatype Run = Run(outcome: Outcome, cursor: int, trace: seq<nat>)

  const MultipleCalls: string := "next() called multiple times"
  const NotAnArray: string := "Middleware stack must be an array!"
  const NotFunctions: string := "Middleware must be composed of functions!"

  // ---------------------------------------------------------------------------
  // Composition time

  /** The values `compose` may be handed. */
  datatype JsValue = JsArray(elements: seq<JsValue>) | JsFunction(script: Script) | JsOther

  predicate AllFunctions(vs: seq<JsValue>)
  {
    forall k :: 0 <= k < |vs| ==> vs[k].JsFunction?
  }

  /**
   * The checks `compose` makes before returning the composed function: a
   * `TypeError` if the argument is not an array, another if any element is not
   * a function; otherwise the handlers, in order.
   */
  method Compose(v: JsValue) returns (r: Result<seq<Script>, string>)
    ensures r.Success? <==> v.JsArray? && AllFunctions(v.elements)
    ensures !v.JsArray? ==> r == Failure(NotAnArray)
    ensures v.JsArray? && !AllFunctions(v.elements) ==> r == Failure(NotFunctions)
    ensures r.Success? ==>
      |r.value| == |v.elements| && forall k :: 0 <= k < |r.value| ==> r.value[k] == v.elements[k].script
  {
    if !v.JsArray? {
      return Failure(NotAnArray);
    }
    var handlers: seq<Script> := [];
    var k := 0;
    while k < |v.elements|
      invariant 0 <= k <= |v.elements| && |handlers| == k
      invariant AllFunctions(v.elements[..k])
      invariant forall j :: 0 <= j < k ==> handlers[j] == v.elements[j].script
    {
      var fn := v.elements[k];
      if !fn.JsFunction? {
        assert !AllFunctions(v.elements);
        return Failure(NotFunctions);
      }
      assert v.elements[..k + 1] == v.elements[..k] + [fn];
      handlers := handlers + [fn.script];
      k := k + 1;
    }
    assert v.elements[..k] == v.elements;
    return Success(handlers);
  }

  // ---------------------------------------------------------------------------
  // Invocation time, as values

  /** `middlewares[i]`, or the optional terminal `next` when `i` is the length. */
  function HandlerAt(hs: seq<Script>, terminal: Option<Script>, i: nat): (h: Option<Script>)
    ensures i < |hs| ==> h == Some(hs[i])
    ensures i == |hs| ==> h == terminal
    ensures i > |hs| ==> h.None?
  {
    if i < |hs| then Some(hs[i])
    else if i == |hs| then terminal
    else None
  }

  /** `dispatch(i)` with the cursor at `cursor`. */
  function Dispatched(hs: seq<Script>, terminal: Option<Script>, i: nat, cursor: int): Run
    requires i <= |hs| + 1
    decreases |hs| + 1 - i, 1, 0
  {
    if i as int <= cursor then Run(Rejected(MultipleCalls), cursor, [])
    else
      var h := HandlerAt(hs, terminal, i);
      if h.None? then Run(Resolved, i, [])
      else
        var r := RunScript(hs, terminal, i, h.value, i);
        Run(r.outcome, r.cursor, [i] + r.trace)
  }

  /** Handler `i` performing `acts` with the cursor at `cursor`. */
  function RunScript(hs: seq<Script>, terminal: Option<Script>, i: nat, acts: Script, cursor: int): Run
    requires i <= |hs|
    decreases |hs| + 1 - i, 0, |acts|
  {
    if acts == [] then Run(Resolved, cursor, [])
    else if acts[0].Throw? then Run(Rejected(acts[0].message), cursor, [])
    else
      var d := Dispatched(hs, terminal, i + 1, cursor);
      if d.outcome.Rejected? then d
      else
        var rest := RunScript(hs, terminal, i, acts[1..], d.cursor);
        Run(rest.outcome, rest.cursor, d.trace + rest.trace)
  }

  /** A handler's `await next()`: a rejected continuation settles the handler;
      otherwise the rest of the script runs from where the continuation left
      the cursor. */
  lemma ContinuationStep(hs: seq<Script>, terminal: Option<Script>, i: nat, acts: Script, cursor: int)
    requires i <= |hs| && acts != [] && acts[0].Next?
    ensures var d := Dispatched(hs, terminal, i + 1, cursor); var r := RunScript(hs, terminal, i, acts, cursor);
      && (d.outcome.Rejected? ==> r == d)
      && (d.outcome.Resolved? ==>
            var rest := RunScript(hs, terminal, i, acts[1..], d.cursor);
            r == Run(rest.outcome, rest.cursor, d.trace + rest.trace))
  {
  }

  /** One `await next()` that resolves, seen from the whole script: what is
      left of the script runs after the continuation's trace. */
  lemma HandleStep(hs: seq<Script>, terminal: Option<Script>, i: nat, acts: Script, cursor: int,
                   done: seq<nat>, whole: Run)
    requires i <= |hs| && acts != [] && acts[0].Next?
    requires Dispatched(hs, terminal, i + 1, cursor).outcome.Resolved?
    requires var tail := RunScript(hs, terminal, i, acts, cursor); whole == Run(tail.outcome, tail.cursor, done + tail.trace)
    ensures var d := Dispatched(hs, terminal, i + 1, cursor); var rest := RunScript(hs, terminal, i, acts[1..], d.cursor);
      whole == Run(rest.outcome, rest.cursor, (done + d.trace) + rest.trace)
  {
    var d := Dispatched(hs, terminal, i + 1, cursor);
    var rest := RunScript(hs, terminal, i, acts[1..], d.cursor);
    ContinuationStep(hs, terminal, i, acts, cursor);
    AppendAssoc(done, d.trace, rest.trace);
  }

  lemma AppendAssoc(a: seq<nat>, b: seq<nat>, c: seq<nat>)
    ensures a + (b + c) == (a + b) + c
  {
  }

  /** The indices `start`, `start + 1`, ..., `count` of them. */
  predicate Consecutive(trace: seq<nat>, start: int)
  {
    forall k :: 0 <= k < |trace| ==> trace[k] == start + k
  }

  // ---------------------------------------------------------------------------
  // Properties of dispatch

  /**
   * A dispatch that is not refused runs handlers `i`, `i + 1`, ... in order,
   * each once, none past the terminal, and moves the cursor at least past the
   * last one; a refused dispatch runs nothing and leaves the cursor alone.
   */
  lemma {:induction false} DispatchRuns(hs: seq<Script>, terminal: Option<Script>, i: nat, cursor: int)
    requires i <= |hs| + 1
    ensures var r := Dispatched(hs, terminal, i, cursor);
      && r.cursor >= cursor
      && (i as int <= cursor ==> r == Run(Rejected(MultipleCalls), cursor, []))
      && (i as int > cursor ==> Consecutive(r.trace, i) && r.cursor >= i + |r.trace| - 1 && r.cursor >= i)
      && i + |r.trace| <= |hs| + 1
    decreases |hs| + 1 - i, 1, 0
  {
    if i as int > cursor {
      var h := HandlerAt(hs, terminal, i);
      if h.Some? {
        ScriptRuns(hs, terminal, i, h.value, i);
      }
    }
  }

  /**
   * A handler's continuation reaches the handlers after it only the first time
   * it is called: the handlers its script runs are consecutive from just past
   * the cursor.
   */
  lemma {:induction false} ScriptRuns(hs: seq<Script>, terminal: Option<Script>, i: nat, acts: Script, cursor: int)
    requires i <= |hs| && cursor >= i
    ensures var r := RunScript(hs, terminal, i, acts, cursor);
      && r.cursor >= cursor
      && Consecutive(r.trace, cursor + 1)
      && r.cursor >= cursor + |r.trace|
      && (r.trace != [] ==> cursor == i)
      && i + 1 + |r.trace| <= |hs| + 1
    decreases |hs| + 1 - i, 0, |acts|
  {
    if acts != [] && acts[0].Next? {
      DispatchRuns(hs, terminal, i + 1, cursor);
      var d := Dispatched(hs, terminal, i + 1, cursor);
      if d.outcome.Resolved? {
        ScriptRuns(hs, terminal, i, acts[1..], d.cursor);
      }
    }
  }

  /** A handler that never calls its continuation ends the chain: it alone runs. */
  lemma NoNextStops(hs: seq<Script>, terminal: Option<Script>, i: nat, cursor: int)
    requires i <= |hs| && i as int > cursor
    requires HandlerAt(hs, terminal, i).Some?
    requires forall k :: 0 <= k < |HandlerAt(hs, terminal, i).value| ==> HandlerAt(hs, terminal, i).value[k].Throw?
    ensures var r := Dispatched(hs, terminal, i, cursor);
      r.trace == [i] && r.cursor == i
      && r.outcome == (if HandlerAt(hs, terminal, i).value == [] then Resolved
                       else Rejected(HandlerAt(hs, terminal, i).value[0].message))
  {
  }

  /**
   * A handler that calls its continuation twice: when the first call settles
   * successfully, the second is refused with "next() called multiple times" and
   * the handler rejects with it.
   */
  lemma NextTwice(hs: seq<Script>, terminal: Option<Script>, i: nat, cursor: int, rest: Script)
    requires i < |hs| && i as int > cursor && hs[i] == [Next, Next] + rest
    ensures var d := Dispatched(hs, terminal, i + 1, i); var r := Dispatched(hs, terminal, i, cursor);
      && (d.outcome.Resolved? ==> r.outcome == Rejected(MultipleCalls))
      && (d.outcome.Rejected? ==> r.outcome == d.outcome)
      && r.trace == [i] + d.trace
  {
    var d := Dispatched(hs, terminal, i + 1, i);
    DispatchRuns(hs, terminal, i + 1, i);
    var acts := hs[i];
    assert acts[0] == Next && acts[1..] == [Next] + rest;
    if d.outcome.Resolved? {
      assert (acts[1..])[0] == Next;
      var again := Dispatched(hs, terminal, i + 1, d.cursor);
      assert again == Run(Rejected(MultipleCalls), d.cursor, []);
      var second := RunScript(hs, terminal, i, acts[1..], d.cursor);
      assert second == again;
      var first := RunScript(hs, terminal, i, acts, i);
      assert first == Run(second.outcome, second.cursor, d.trace + second.trace);
      assert d.trace + second.trace == d.trace;
    }
  }

  /** A handler that throws before calling its continuation rejects with its error. */
  lemma ThrowRejects(hs: seq<Script>, terminal: Option<Script>, i: nat, cursor: int, m: string, rest: Script)
    requires i < |hs| && i as int > cursor && hs[i] == [Throw(m)] + rest
    ensures Dispatched(hs, terminal, i, cursor) == Run(Rejected(m), i, [i])
  {
  }

  /** With no handlers and no terminal, the composed function resolves at once. */
  lemma EmptyResolves()
    ensures Dispatched([], None, 0, -1) == Run(Resolved, 0, [])
  {
  }

  /**
   * Handlers `i` up to `j` that only await their continuation hand control
   * straight down the chain: they run in order and then the dispatch of `j`
   * decides the outcome.
   */
  lemma {:induction false} PassThrough(hs: seq<Script>, terminal: Option<Script>, i: nat, j: nat)
    requires i <= j <= |hs| + 1
    requires forall k :: i <= k < j ==> HandlerAt(hs, terminal, k) == Some([Next])
    ensures var d := Dispatched(hs, terminal, j, j - 1); var r := Dispatched(hs, terminal, i, i - 1);
      r == Run(d.outcome, d.cursor, seq(j - i, k => i + k) + d.trace)
    decreases j - i
  {
    if i < j {
      PassThrough(hs, terminal, i + 1, j);
      DispatchRuns(hs, terminal, i + 1, i);
      var d := Dispatched(hs, terminal, i + 1, i);
      var s := RunScript(hs, terminal, i, [Next], i);
      if d.outcome.Resolved? {
        assert [Next][1..] == [];
        assert RunScript(hs, terminal, i, [], d.cursor) == Run(Resolved, d.cursor, []);
        assert d.trace + [] == d.trace;
        assert s == Run(Resolved, d.cursor, d.trace);
      }
      assert [i] + seq(j - (i + 1), k => i + 1 + k) == seq(j - i, k => i + k);
    }
  }

  /** Pass-through handlers and a terminal that resolves: every handler runs, in
      order, then the terminal. */
  lemma AllPassThrough(hs: seq<Script>)
    requires forall k :: 0 <= k < |hs| ==> hs[k] == [Next]
    ensures Dispatched(hs, Some([]), 0, -1) == Run(Resolved, |hs|, seq(|hs| + 1, k => k))
  {
    PassThrough(hs, Some([]), 0, |hs|);
    assert seq(|hs|, k => 0 + k) + [|hs|] == seq(|hs| + 1, k => k);
  }

  /** A throw deep in a pass-through chain rejects the whole invocation with its
      error, after running every handler up to it. */
  lemma ThrowPropagates(hs: seq<Script>, terminal: Option<Script>, j: nat, m: string)
    requires j < |hs| && hs[j] == [Throw(m)]
    requires forall k :: 0 <= k < j ==> hs[k] == [Next]
    ensures Dispatched(hs, terminal, 0, -1) == Run(Rejected(m), j, seq(j + 1, k => k))
  {
    PassThrough(hs, terminal, 0, j);
    assert seq(j, k => 0 + k) + [j] == seq(j + 1, k => k);
  }

  // ---------------------------------------------------------------------------
  // Invocation time, as the closure does it

  /** One invocation of the composed function: the closure's captured cursor. */
  class Dispatcher {
    const handlers: seq<Script>
    const terminal: Option<Script>
    var index: int
    var ran: seq<nat>

    constructor (hs: seq<Script>, next: Option<Script>)
      ensures handlers == hs && terminal == next && index == -1 && ran == []
    {
      handlers := hs;
      terminal := next;
      index := -1;
      ran := [];
    }

    /** `dispatch(i)`: refuse an index at or before the cursor, move the cursor,
        then run the handler at `i`, if there is one. */
    method Dispatch(i: nat) returns (outcome: Outcome)
      requires i <= |handlers| + 1
      modifies this
      decreases |handlers| + 1 - i, 1, 0
      ensures var r := Dispatched(handlers, terminal, i, old(index));
        outcome == r.outcome && index == r.cursor && ran == old(ran) + r.trace
    {
      if i as int <= index {
        return Rejected(MultipleCalls);
      }
      index := i;
      var fn := HandlerAt(handlers, terminal, i);
      if fn.None? {
        return Resolved;
      }
      ran := ran + [i];
      outcome := Handle(i, fn.value);
    }

    /** Handler `i` running `script` with the continuation `dispatch(i + 1)`; a
        rejected continuation or a throw rejects it. */
    method Handle(i: nat, script: Script) returns (outcome: Outcome)
      requires i <= |handlers|
      modifies this
      decreases |handlers| + 1 - i, 0, |script|
      ensures var r := RunScript(handlers, terminal, i, script, old(index));
        outcome == r.outcome && index == r.cursor && ran == old(ran) + r.trace
    {
      ghost var start := ran;
      ghost var whole := RunScript(handlers, terminal, i, script, index);
      ghost var done: seq<nat> := [];
      var k := 0;
      while k < |script|
        invariant 0 <= k <= |script| && ran == start + done
        invariant var tail := RunScript(handlers, terminal, i, script[k..], index);
          whole == Run(tail.outcome, tail.cursor, done + tail.trace)
      {
        if script[k].Throw? {
          return Rejected(script[k].message);
        }
        ghost var c := index;
        ghost var d := Dispatched(handlers, terminal, i + 1, c);
        var next := Dispatch(i + 1);
        if next.Rejected? {
          ContinuationStep(handlers, terminal, i, script[k..], c);
          return next;
        }
        HandleStep(handlers, terminal, i, script[k..], c, done, whole);
        assert script[k..][1..] == script[k + 1..];
        done := done + d.trace;
        k := k + 1;
      }
      return Resolved;
    }
  }

  /** The composed function, called: a fresh cursor for every invocation, so
      separate invocations do not see each other. */
  method Invoke(hs: seq<Script>, terminal: Option<Script>) returns (outcome: Outcome, ran: seq<nat>)
    ensures var r := Dispatched(hs, terminal, 0, -1);
      outcome == r.outcome && ran == r.trace
  {
    var d := new Dispatcher(hs, terminal);
    outcome := d.Dispatch(0);
    ran := d.ran;
  }
}
