/** The `batch` operator: items are collected into a buffer; a full buffer is
    yielded as one list and counted in `batches`; when the input is used up, a
    non-empty partial buffer is yielded and counted too.  The buffer is lost if
    an exception escapes from upstream. */
module Batching {
  import opened Values
  import opened RunStatsModel
  import opened Seqs
  import opened Traces

  function BatchFrom(t: Trace, size: int, buffer: seq<Value>): Trace
    decreases |t.events|
  {
    if t.events == [] then
      if t.end == Exhausted && buffer != [] then Trace([Tick(Batches), Yield(List(buffer))], Exhausted)
      else Trace([], t.end)
    else
      var e := t.events[0];
      if e.Yield? then
        var filled := buffer + [e.v];
        if |filled| == size then Then([Tick(Batches), Yield(List(filled))], BatchFrom(Rest(t), size, []))
        else BatchFrom(Rest(t), size, filled)
      else Then([e], BatchFrom(Rest(t), size, buffer))
  }

  /** `batch(size)` over the trace of the stage before it; no size is rejected. */
  function Batch(t: Trace, size: int): Trace
  {
    BatchFrom(t, size, [])
  }

  function AsList(group: seq<Value>): Value
  {
    List(group)
  }

  /** The events of yielding one full or final group. */
  lemma Flush(group: seq<Value>)
    ensures Yields([Tick(Batches), Yield(List(group))]) == [List(group)]
    ensures Ticks([Tick(Batches), Yield(List(group))], Batches) == 1
    ensures forall c :: c != Batches ==> Ticks([Tick(Batches), Yield(List(group))], c) == 0
    ensures forall s :: CallsAt([Tick(Batches), Yield(List(group))], s) == []
    ensures MapSeq([group], AsList) == [List(group)]
  {
    Concatenation([Tick(Batches)], [Yield(List(group))]);
    OneEvent(Tick(Batches));
    OneEvent(Yield(List(group)));
    assert [Tick(Batches)] + [Yield(List(group))] == [Tick(Batches), Yield(List(group))];
  }

  /** Batching passes everything else through: it ends as its input ends, and
      every counter except `batches` and every callback's calls are unchanged. */
  lemma {:induction false} BatchFromPassesThrough(t: Trace, size: int, buffer: seq<Value>)
    ensures var out := BatchFrom(t, size, buffer);
            && out.end == t.end
            && (forall c :: c != Batches ==> Ticks(out.events, c) == Ticks(t.events, c))
            && (forall s :: CallsAt(out.events, s) == CallsAt(t.events, s))
    decreases |t.events|
  {
    if t.events == [] {
      if t.end == Exhausted && buffer != [] {
        Flush(buffer);
      }
    } else {
      var e := t.events[0];
      OneEvent(e);
      Concatenation([e], t.events[1..]);
      assert [e] + t.events[1..] == t.events;
      if e.Yield? {
        var filled := buffer + [e.v];
        if |filled| == size {
          BatchFromPassesThrough(Rest(t), size, []);
          Concatenation([Tick(Batches), Yield(List(filled))], BatchFrom(Rest(t), size, []).events);
          Flush(filled);
        } else {
          BatchFromPassesThrough(Rest(t), size, filled);
          assert BatchFrom(t, size, buffer) == BatchFrom(Rest(t), size, filled);
        }
      } else {
        var later := BatchFrom(Rest(t), size, buffer);
        BatchFromPassesThrough(Rest(t), size, buffer);
        Concatenation([e], later.events);
        assert BatchFrom(t, size, buffer) == Then([e], later);
      }
    }
  }

  /** With a buffer that is not yet full, an input that runs out yields, as
      lists, the groups of the buffered items followed by the input's items,
      and counts each group once. */
  lemma {:induction false} BatchFromChunks(t: Trace, size: int, buffer: seq<Value>)
    requires size <= 0 || |buffer| < size
    requires t.end == Exhausted
    ensures Grouped(t, size, buffer)
    decreases |t.events|
  {
    if t.events == [] {
      assert buffer + Yields(t.events) == buffer;
      if buffer != [] {
        Flush(buffer);
      }
    } else if !t.events[0].Yield? {
      BatchFromChunks(Rest(t), size, buffer);
      GroupedOther(t, size, buffer);
    } else if |buffer + [t.events[0].v]| == size {
      BatchFromChunks(Rest(t), size, []);
      GroupedFull(t, size, buffer);
    } else {
      BatchFromChunks(Rest(t), size, buffer + [t.events[0].v]);
      GroupedFill(t, size, buffer);
    }
  }

  /** Batching `t` from `buffer` yields the groups of the buffered items followed
      by the input's items, as lists, and counts each group once. */
  ghost predicate Grouped(t: Trace, size: int, buffer: seq<Value>)
  {
    var out := BatchFrom(t, size, buffer);
    && Yields(out.events) == MapSeq(Chunks(buffer + Yields(t.events), size), AsList)
    && Ticks(out.events, Batches) == Ticks(t.events, Batches) + |Chunks(buffer + Yields(t.events), size)|
  }

  /** The first event and the rest of a non-empty trace. */
  lemma Split(t: Trace)
    requires t.events != []
    ensures Yields(t.events) == Yields([t.events[0]]) + Yields(Rest(t).events)
    ensures Ticks(t.events, Batches) == Ticks([t.events[0]], Batches) + Ticks(Rest(t).events, Batches)
  {
    Concatenation([t.events[0]], t.events[1..]);
    assert [t.events[0]] + t.events[1..] == t.events;
  }

  lemma GroupedOther(t: Trace, size: int, buffer: seq<Value>)
    requires t.events != [] && !t.events[0].Yield?
    requires Grouped(Rest(t), size, buffer)
    ensures Grouped(t, size, buffer)
  {
    var e, later := t.events[0], BatchFrom(Rest(t), size, buffer);
    Split(t);
    OneEvent(e);
    Concatenation([e], later.events);
    assert BatchFrom(t, size, buffer) == Then([e], later);
    assert Yields(BatchFrom(t, size, buffer).events) == Yields(later.events);
    assert Yields(t.events) == Yields(Rest(t).events);
  }

  lemma GroupedFill(t: Trace, size: int, buffer: seq<Value>)
    requires t.events != [] && t.events[0].Yield?
    requires |buffer + [t.events[0].v]| != size
    requires Grouped(Rest(t), size, buffer + [t.events[0].v])
    ensures Grouped(t, size, buffer)
  {
    Split(t);
    OneEvent(t.events[0]);
    assert buffer + Yields(t.events) == (buffer + [t.events[0].v]) + Yields(Rest(t).events);
    assert BatchFrom(t, size, buffer) == BatchFrom(Rest(t), size, buffer + [t.events[0].v]);
  }

  lemma GroupedFull(t: Trace, size: int, buffer: seq<Value>)
    requires t.events != [] && t.events[0].Yield?
    requires |buffer + [t.events[0].v]| == size
    requires Grouped(Rest(t), size, [])
    ensures Grouped(t, size, buffer)
  {
    var filled, ys := buffer + [t.events[0].v], Yields(Rest(t).events);
    var later := BatchFrom(Rest(t), size, []);
    Split(t);
    OneEvent(t.events[0]);
    assert buffer + Yields(t.events) == filled + ys;
    assert [] + ys == ys;
    Concatenation([Tick(Batches), Yield(List(filled))], later.events);
    Flush(filled);
    var all := filled + ys;
    if ys == [] {
      assert all == filled;
      assert Chunks(all, size) == [filled];
    } else {
      assert all[..size] == filled && all[size..] == ys;
      assert Chunks(all, size) == [filled] + Chunks(ys, size);
      assert MapSeq(Chunks(all, size), AsList)[1..] == MapSeq(Chunks(ys, size), AsList);
    }
  }

  /** `batch(size)` over an input that runs out yields the groups of its items
      as lists (which concatenate back to the items), and `batches` grows by
      the number of groups: `ceil(N / size)` for a positive size, and one group
      holding everything for a non-positive size. */
  lemma BatchGroups(t: Trace, size: int)
    requires t.end == Exhausted
    ensures var out := Batch(t, size);
            var groups := Chunks(Yields(t.events), size);
            && out.end == Exhausted
            && Yields(out.events) == MapSeq(groups, AsList)
            && Concat(groups) == Yields(t.events)
            && Ticks(out.events, Batches) == Ticks(t.events, Batches) + |groups|
            && (size >= 1 ==> |groups| == (|Yields(t.events)| + size - 1) / size)
            && (size <= 0 && Yields(t.events) != [] ==> groups == [Yields(t.events)])
  {
    BatchFromChunks(t, size, []);
    BatchFromPassesThrough(t, size, []);
    assert [] + Yields(t.events) == Yields(t.events);
    ChunksConcat(Yields(t.events), size);
    if size >= 1 {
      ChunksCount(Yields(t.events), size);
    }
  }
}
