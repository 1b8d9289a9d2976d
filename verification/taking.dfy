/** The `take` operator.  It counts the items it has yielded; it pulls an item
    and only then checks the count, so with `n` items yielded it still pulls
    item `n + 1` from upstream before it stops.  After stopping it never pulls
    again: upstream does no further work. */
module Taking {
  import opened Values
  import opened RunStatsModel
  import opened Seqs
  import opened Traces

  function TakeFrom(t: Trace, n: int, count: int): Trace
    decreases |t.events|
  {
    if t.events == [] then t
    else
      var e := t.events[0];
      if e.Yield? then
        if count >= n then Trace([], Exhausted)
        else Then([e], TakeFrom(Rest(t), n, count + 1))
      else Then([e], TakeFrom(Rest(t), n, count))
  }

  /** `take(n)` over the trace of the stage before it. */
  function Take(t: Trace, n: int): Trace
  {
    TakeFrom(t, n, 0)
  }

  function Room(n: int, count: int): nat
  {
    if n - count < 0 then 0 else n - count
  }

  function Min(a: int, b: int): int
  {
    if a <= b then a else b
  }

  /** With room for `m` more items: what happens is a prefix of what upstream
      would do; the items are the first `m` of upstream's (all of them if
      there are fewer); if upstream has more, everything stops exactly when
      item `m + 1` is pulled, and otherwise everything upstream does passes
      through, its end included. */
  predicate TakesPrefix(t: Trace, m: nat, out: Trace)
  {
    && out.events <= t.events
    && Yields(out.events) == Yields(t.events)[..Min(m, |Yields(t.events)|)]
    && (|Yields(t.events)| <= m ==> out == t)
    && (|Yields(t.events)| > m ==>
          out.end == Exhausted && |out.events| < |t.events| && t.events[|out.events|].Yield?)
  }

  lemma {:induction false} TakeFromPrefix(t: Trace, n: int, count: int)
    ensures TakesPrefix(t, Room(n, count), TakeFrom(t, n, count))
    decreases |t.events|
  {
    if t.events != [] {
      var e := t.events[0];
      if e.Yield? && count < n {
        TakeFromPrefix(Rest(t), n, count + 1);
        TakeYielded(t, n, count);
      } else if e.Yield? {
        assert Yields(t.events) == [e.v] + Yields(t.events[1..]);
      } else {
        TakeFromPrefix(Rest(t), n, count);
        TakePassed(t, n, count);
      }
    }
  }

  /** An item yielded while there is room. */
  lemma TakeYielded(t: Trace, n: int, count: int)
    requires t.events != [] && t.events[0].Yield? && count < n
    requires TakesPrefix(Rest(t), Room(n, count + 1), TakeFrom(Rest(t), n, count + 1))
    ensures TakesPrefix(t, Room(n, count), TakeFrom(t, n, count))
  {
    var e := t.events[0];
    var ys := Yields(t.events[1..]);
    var later := TakeFrom(Rest(t), n, count + 1);
    Concatenation([e], t.events[1..]);
    assert [e] + t.events[1..] == t.events;
    Concatenation([e], later.events);
    assert Yields(t.events) == [e.v] + ys;
    var m := Room(n, count);
    assert Room(n, count + 1) == m - 1;
    if |ys| > m - 1 {
      assert ([e.v] + ys)[..m] == [e.v] + ys[..m - 1];
    } else {
      assert ([e.v] + ys)[..|ys| + 1] == [e.v] + ys[..|ys|];
    }
  }

  /** An event other than an item passes through. */
  lemma TakePassed(t: Trace, n: int, count: int)
    requires t.events != [] && !t.events[0].Yield?
    requires TakesPrefix(Rest(t), Room(n, count), TakeFrom(Rest(t), n, count))
    ensures TakesPrefix(t, Room(n, count), TakeFrom(t, n, count))
  {
    var e := t.events[0];
    var later := TakeFrom(Rest(t), n, count);
    Concatenation([e], t.events[1..]);
    assert [e] + t.events[1..] == t.events;
    Concatenation([e], later.events);
    OneEvent(e);
  }

  /** `take(n)` yields the first `min(n, N)` of its `N` input items and only
      does what upstream does up to pulling item `n + 1`, so no counter grows
      past upstream's. */
  lemma TakePrefix(t: Trace, n: int)
    ensures var out := Take(t, n);
            var m := Room(n, 0);
            && out.events <= t.events
            && Yields(out.events) == Yields(t.events)[..Min(m, |Yields(t.events)|)]
            && (|Yields(t.events)| <= m ==> out == t)
            && (|Yields(t.events)| > m ==> out.end == Exhausted && |out.events| < |t.events| && t.events[|out.events|].Yield?)
            && (forall c :: Ticks(out.events, c) <= Ticks(t.events, c))
  {
    TakeFromPrefix(t, n, 0);
    forall c
      ensures Ticks(Take(t, n).events, c) <= Ticks(t.events, c)
    {
      PrefixTicks(Take(t, n).events, t.events, c);
    }
  }

  /** Directly after the source, `take(n)` pulls `min(n + 1, N)` of the `N`
      source items (one item for a negative `n`). */
  lemma {:induction false} TakeAfterSource(xs: seq<Value>, n: int, count: int)
    ensures Ticks(TakeFrom(Source(xs), n, count).events, Processed) == Min(Room(n, count) + 1, |xs|)
    decreases |xs|
  {
    if xs != [] {
      var src := Source(xs);
      var later := Source(xs[1..]);
      assert src.events == [Tick(Processed), Yield(xs[0])] + later.events;
      var afterTick := Rest(src);
      assert afterTick.events == [Yield(xs[0])] + later.events;
      assert Rest(afterTick) == later;
      var out := TakeFrom(afterTick, n, count);
      assert TakeFrom(src, n, count) == Then([Tick(Processed)], out);
      Concatenation([Tick(Processed)], out.events);
      if count < n {
        TakeAfterSource(xs[1..], n, count + 1);
        Concatenation([Yield(xs[0])], TakeFrom(later, n, count + 1).events);
      }
    }
  }
}
