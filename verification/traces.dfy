/** Traces: the complete, in-order record of what one lazy stage does.

    Every stage of a pipeline is a generator that pulls from the stage before
    it.  Because evaluation is single-threaded and deterministic, the whole
    execution of a stage over a finite input is described by the sequence of
    things it does, in order: items it yields, counters it increments and
    user callbacks it calls, followed by how it ends (its input ran out, or an
    exception escaped).  A stage that stops pulling early simply cuts the trace
    of the stage before it: whatever upstream would have done later never
    happens.
 */
module Traces {
  import opened Values
  import opened RunStatsModel

  /** A side-effecting user callback invoked by a stage: a `tap` function, or a
      `catch` error handler receiving the item and the exception. */
  datatype Call = TapCall(item: Value) | ErrorCall(item: Value, exc: Exc)

  /** One observable step.  `site` is the position of the calling operator in
      the pipeline, so that the calls of different callbacks can be told apart. */
  datatype Event = Yield(v: Value) | Tick(counter: Counter) | Called(site: nat, call: Call)

  /** How a stage finishes: its input is used up, or an exception propagates. */
  datatype End = Exhausted | Failed(exc: Exc)

  datatype Trace = Trace(events: seq<Event>, end: End)

  /** The trace after its first event. */
  function Rest(t: Trace): Trace
    requires t.events != []
  {
    Trace(t.events[1..], t.end)
  }

  /** `out` happens, then `t`. */
  function Then(out: seq<Event>, t: Trace): Trace
  {
    Trace(out + t.events, t.end)
  }

  /** The items yielded, in order. */
  function Yields(es: seq<Event>): seq<Value>
  {
    if es == [] then [] else (if es[0].Yield? then [es[0].v] else []) + Yields(es[1..])
  }

  /** How many times counter `c` is incremented. */
  function Ticks(es: seq<Event>, c: Counter): nat
  {
    if es == [] then 0 else (if es[0] == Tick(c) then 1 else 0) + Ticks(es[1..], c)
  }

  /** The calls made by the operator at position `site`, in order. */
  function CallsAt(es: seq<Event>, site: nat): seq<Call>
  {
    if es == [] then []
    else (if es[0].Called? && es[0].site == site then [es[0].call] else []) + CallsAt(es[1..], site)
  }

  /** All three views distribute over concatenation. */
  lemma {:induction false} Concatenation(a: seq<Event>, b: seq<Event>)
    ensures Yields(a + b) == Yields(a) + Yields(b)
    ensures forall c :: Ticks(a + b, c) == Ticks(a, c) + Ticks(b, c)
    ensures forall site :: CallsAt(a + b, site) == CallsAt(a, site) + CallsAt(b, site)
  {
    if a == [] {
      assert a + b == b;
    } else {
      assert (a + b)[0] == a[0];
      assert (a + b)[1..] == a[1..] + b;
      Concatenation(a[1..], b);
    }
  }

  /** A trace step that only yields `vs`. */
  function Emit(vs: seq<Value>): (es: seq<Event>)
    ensures |es| == |vs|
    ensures Yields(es) == vs
    ensures forall c :: Ticks(es, c) == 0
    ensures forall site :: CallsAt(es, site) == []
  {
    if vs == [] then [] else [Yield(vs[0])] + Emit(vs[1..])
  }

  /** The counting layer around the source: every item pulled from the source
      increments `processed` and is then yielded. */
  function Source(xs: seq<Value>): (t: Trace)
    ensures t.end == Exhausted
    ensures Yields(t.events) == xs
    ensures Ticks(t.events, Processed) == |xs|
    ensures forall c :: c != Processed ==> Ticks(t.events, c) == 0
    ensures forall site :: CallsAt(t.events, site) == []
  {
    if xs == [] then Trace([], Exhausted)
    else
      var rest := Source(xs[1..]);
      Concatenation([Tick(Processed), Yield(xs[0])], rest.events);
      Then([Tick(Processed), Yield(xs[0])], rest)
  }

  lemma {:induction false} EmitAppend(a: seq<Value>, b: seq<Value>)
    ensures Emit(a + b) == Emit(a) + Emit(b)
  {
    if a == [] {
      assert a + b == b;
    } else {
      assert (a + b)[1..] == a[1..] + b;
      EmitAppend(a[1..], b);
    }
  }

  /** A prefix of a trace counts no more of anything than the whole trace. */
  lemma {:induction false} PrefixTicks(a: seq<Event>, b: seq<Event>, c: Counter)
    requires a <= b
    ensures Ticks(a, c) <= Ticks(b, c)
  {
    Concatenation(a, b[|a|..]);
    assert a + b[|a|..] == b;
  }

  /** The three views of a single event. */
  lemma OneEvent(e: Event)
    ensures Yields([e]) == (if e.Yield? then [e.v] else [])
    ensures forall c :: Ticks([e], c) == (if e == Tick(c) then 1 else 0)
    ensures forall site :: CallsAt([e], site) == (if e.Called? && e.site == site then [e.call] else [])
  {
    assert [e][1..] == [];
  }
}
