/** The `dedupe` operator: an ordered record of the keys seen so far; an item
    whose key is new is recorded and yielded, an item whose key is recorded is
    counted in `dropped` and suppressed.  With a bound, recording a key that
    makes the record too long evicts the key recorded first.  A repeated key is
    not moved to the back, so eviction is first-in first-out, not
    least-recently-used. */
module Deduplication {
  import opened Values
  import opened RunStatsModel
  import opened Seqs
  import opened Traces

  /** The comparison value of an item: `key(item)`, or the item itself. */
  function KeyFn(key: Option<Value -> Value>): Value -> Value
  {
    if key.Some? then key.value else v => v
  }

  /** The number of keys a bound lets the record keep. */
  function Capacity(maxSize: int): nat
  {
    if maxSize < 0 then 0 else maxSize
  }

  /** Records the new key `k`, evicting the oldest key when the record grows
      past the bound.  The result is the newest entries of `seen + [k]`: at most
      one key, the earliest recorded, is lost; unbounded, nothing is lost; and a
      record within the bound stays within it. */
  function Remember(seen: seq<Value>, k: Value, maxSize: Option<int>): (r: seq<Value>)
    ensures |seen| <= |r| <= |seen| + 1
    ensures r == seen + [k] || r == (seen + [k])[1..]
    ensures |r| == |seen| + 1 <==> maxSize.None? || |seen| + 1 <= maxSize.value
    ensures maxSize.None? ==> r == seen + [k]
    ensures maxSize.Some? && |seen| <= Capacity(maxSize.value) ==> |r| <= Capacity(maxSize.value)
    ensures maxSize.Some? && maxSize.value >= 1 ==> k in r
  {
    var s := seen + [k];
    if maxSize.Some? && |s| > maxSize.value then
      assert |s| >= 2 ==> s[1..][|s| - 2] == k;
      s[1..]
    else s
  }

  function DedupeFrom(t: Trace, key: Option<Value -> Value>, maxSize: Option<int>, seen: seq<Value>): Trace
    decreases |t.events|
  {
    if t.events == [] then t
    else
      var e := t.events[0];
      if e.Yield? then
        var k := KeyFn(key)(e.v);
        if k !in seen then Then([e], DedupeFrom(Rest(t), key, maxSize, Remember(seen, k, maxSize)))
        else Then([Tick(Dropped)], DedupeFrom(Rest(t), key, maxSize, seen))
      else Then([e], DedupeFrom(Rest(t), key, maxSize, seen))
  }

  /** `dedupe` applied to a plain sequence of items, starting from
      the record `seen`. */
  function Distinct(xs: seq<Value>, kf: Value -> Value, maxSize: Option<int>, seen: seq<Value>): (r: seq<Value>)
    ensures |r| <= |xs|
  {
    if xs == [] then []
    else
      var k := kf(xs[0]);
      if k !in seen then [xs[0]] + Distinct(xs[1..], kf, maxSize, Remember(seen, k, maxSize))
      else Distinct(xs[1..], kf, maxSize, seen)
  }

  /** The record after the items `xs`, starting from `seen`. */
  function Record(xs: seq<Value>, kf: Value -> Value, maxSize: Option<int>, seen: seq<Value>): seq<Value>
  {
    if xs == [] then seen
    else
      var k := kf(xs[0]);
      Record(xs[1..], kf, maxSize, if k !in seen then Remember(seen, k, maxSize) else seen)
  }

  /** With a bound of `m`, the record never holds more than `m` keys, however
      many items have been seen. */
  lemma {:induction false} RecordBounded(xs: seq<Value>, kf: Value -> Value, m: int, seen: seq<Value>)
    requires |seen| <= Capacity(m)
    ensures |Record(xs, kf, Some(m), seen)| <= Capacity(m)
    decreases |xs|
  {
    if xs != [] {
      var k := kf(xs[0]);
      RecordBounded(xs[1..], kf, m, if k !in seen then Remember(seen, k, Some(m)) else seen);
    }
  }

  /** The keys a record holds. */
  function Members(seen: seq<Value>): set<Value>
  {
    set k | k in seen
  }

  /** Running over `xs + ys` is running over `xs`, then over `ys` from the
      record `xs` leaves behind. */
  predicate Splits(xs: seq<Value>, ys: seq<Value>, kf: Value -> Value, maxSize: Option<int>, seen: seq<Value>)
  {
    Distinct(xs + ys, kf, maxSize, seen) == Distinct(xs, kf, maxSize, seen) + Distinct(ys, kf, maxSize, Record(xs, kf, maxSize, seen))
  }

  lemma {:induction false} DistinctSplit(xs: seq<Value>, ys: seq<Value>, kf: Value -> Value, maxSize: Option<int>, seen: seq<Value>)
    ensures Splits(xs, ys, kf, maxSize, seen)
    decreases |xs|
  {
    if xs == [] {
      assert xs + ys == ys;
    } else {
      var x, rest := xs[0], xs[1..];
      assert xs == [x] + rest;
      if kf(x) !in seen {
        DistinctSplit(rest, ys, kf, maxSize, Remember(seen, kf(x), maxSize));
        SplitsNew(x, rest, ys, kf, maxSize, seen, Remember(seen, kf(x), maxSize));
      } else {
        DistinctSplit(rest, ys, kf, maxSize, seen);
        SplitsOld(x, rest, ys, kf, maxSize, seen);
      }
    }
  }

  /** One item with a new key, in front of a split that holds. */
  lemma SplitsNew(x: Value, rest: seq<Value>, ys: seq<Value>, kf: Value -> Value, maxSize: Option<int>, seen: seq<Value>, seen': seq<Value>)
    requires kf(x) !in seen && seen' == Remember(seen, kf(x), maxSize)
    requires Splits(rest, ys, kf, maxSize, seen')
    ensures Splits([x] + rest, ys, kf, maxSize, seen)
  {
    var xs := [x] + rest;
    assert xs[0] == x && xs[1..] == rest;
    assert (xs + ys)[0] == x && (xs + ys)[1..] == rest + ys;
    var a, b := Distinct(rest, kf, maxSize, seen'), Distinct(ys, kf, maxSize, Record(rest, kf, maxSize, seen'));
    assert [x] + (a + b) == ([x] + a) + b;
  }

  /** One item with a recorded key, in front of a split that holds. */
  lemma SplitsOld(x: Value, rest: seq<Value>, ys: seq<Value>, kf: Value -> Value, maxSize: Option<int>, seen: seq<Value>)
    requires kf(x) in seen
    requires Splits(rest, ys, kf, maxSize, seen)
    ensures Splits([x] + rest, ys, kf, maxSize, seen)
  {
    var xs := [x] + rest;
    assert xs[0] == x && xs[1..] == rest;
    assert (xs + ys)[0] == x && (xs + ys)[1..] == rest + ys;
  }

  /** The items let through keep their order: the output is the input with
      some items left out. */
  lemma {:induction false} DistinctSubsequence(xs: seq<Value>, kf: Value -> Value, maxSize: Option<int>, seen: seq<Value>)
    ensures Subsequence(Distinct(xs, kf, maxSize, seen), xs)
    decreases |xs|
  {
    if xs != [] {
      var k := kf(xs[0]);
      if k !in seen {
        DistinctSubsequence(xs[1..], kf, maxSize, Remember(seen, k, maxSize));
        var out := Distinct(xs, kf, maxSize, seen);
        assert out[0] == xs[0] && out[1..] == Distinct(xs[1..], kf, maxSize, Remember(seen, k, maxSize));
      } else {
        DistinctSubsequence(xs[1..], kf, maxSize, seen);
      }
    }
  }

  /** Every key of the input is either yielded or already recorded, and only
      keys of the input are yielded: a key is never lost, bound or no bound,
      because it is always yielded before it can be evicted. */
  lemma {:induction false} DistinctKeys(xs: seq<Value>, kf: Value -> Value, maxSize: Option<int>, seen: seq<Value>)
    ensures Keys(xs, kf) + Members(seen) == Keys(Distinct(xs, kf, maxSize, seen), kf) + Members(seen)
    decreases |xs|
  {
    if xs != [] {
      var x, k := xs[0], kf(xs[0]);
      KeysAppend([x], xs[1..], kf);
      KeysOne(x, kf);
      assert [x] + xs[1..] == xs;
      if k !in seen {
        var seen' := Remember(seen, k, maxSize);
        DistinctKeys(xs[1..], kf, maxSize, seen');
        assert Members(seen') <= Members(seen) + {k} by {
          forall v | v in seen' ensures v in seen + [k] {
            if seen' != seen + [k] {
              var i :| 0 <= i < |seen'| && seen'[i] == v;
              assert v == (seen + [k])[i + 1];
            }
          }
        }
        var rest := Distinct(xs[1..], kf, maxSize, seen');
        KeysAppend([x], rest, kf);
        assert Distinct(xs, kf, maxSize, seen) == [x] + rest;
      } else {
        DistinctKeys(xs[1..], kf, maxSize, seen);
      }
    }
  }

  /** With a bound, the record left after a prefix of the input holds at most
      the bound's number of keys, and the rest of the input is handled from
      that record. */
  predicate RecordAt(xs: seq<Value>, kf: Value -> Value, m: int, i: int)
    requires 0 <= i <= |xs|
  {
    var record := Record(xs[..i], kf, Some(m), []);
    && |record| <= Capacity(m)
    && Distinct(xs, kf, Some(m), []) == Distinct(xs[..i], kf, Some(m), []) + Distinct(xs[i..], kf, Some(m), record)
  }

  lemma BoundedRecordAt(xs: seq<Value>, kf: Value -> Value, m: int, i: int)
    requires 0 <= i <= |xs|
    ensures RecordAt(xs, kf, m, i)
  {
    RecordBounded(xs[..i], kf, m, []);
    DistinctSplit(xs[..i], xs[i..], kf, Some(m), []);
    assert xs[..i] + xs[i..] == xs;
  }

  /** The record stays within the bound at every point of the input. */
  lemma BoundedRecord(xs: seq<Value>, kf: Value -> Value, m: int)
    ensures forall i :: 0 <= i <= |xs| ==> RecordAt(xs, kf, m, i)
  {
    forall i | 0 <= i <= |xs| ensures RecordAt(xs, kf, m, i) {
      BoundedRecordAt(xs, kf, m, i);
    }
  }

  /** `dedupe(key, max_size)` over the trace of the stage before it. */
  function Dedupe(t: Trace, key: Option<Value -> Value>, maxSize: Option<int>): Trace
  {
    DedupeFrom(t, key, maxSize, [])
  }

  /** `out` ends as `t` does, has as many items and drops together as `t`, and
      agrees with `t` on every other counter and every callback. */
  ghost predicate Conserved(t: Trace, out: Trace)
  {
    && out.end == t.end
    && |Yields(out.events)| + Ticks(out.events, Dropped) == |Yields(t.events)| + Ticks(t.events, Dropped)
    && (forall c :: c != Dropped ==> Ticks(out.events, c) == Ticks(t.events, c))
    && (forall s :: CallsAt(out.events, s) == CallsAt(t.events, s))
  }

  /** Every item is either yielded or counted in `dropped`, bound or no bound;
      everything else passes through. */
  lemma {:induction false} DedupeConserves(t: Trace, key: Option<Value -> Value>, maxSize: Option<int>, seen: seq<Value>)
    ensures Conserved(t, DedupeFrom(t, key, maxSize, seen))
    decreases |t.events|
  {
    if t.events != [] {
      var e := t.events[0];
      assert t == Then([e], Rest(t));
      if e.Yield? {
        var k := KeyFn(key)(e.v);
        if k !in seen {
          DedupeConserves(Rest(t), key, maxSize, Remember(seen, k, maxSize));
          ConservedThen(e, e, Rest(t), DedupeFrom(Rest(t), key, maxSize, Remember(seen, k, maxSize)));
        } else {
          DedupeConserves(Rest(t), key, maxSize, seen);
          ConservedThen(e, Tick(Dropped), Rest(t), DedupeFrom(Rest(t), key, maxSize, seen));
        }
      } else {
        DedupeConserves(Rest(t), key, maxSize, seen);
        ConservedThen(e, e, Rest(t), DedupeFrom(Rest(t), key, maxSize, seen));
      }
    }
  }

  /** Passing an event through, or dropping an item, keeps the balance. */
  lemma ConservedThen(e: Event, f: Event, t: Trace, out: Trace)
    requires e == f || (e.Yield? && f == Tick(Dropped))
    requires Conserved(t, out)
    ensures Conserved(Then([e], t), Then([f], out))
  {
    Concatenation([e], t.events);
    Concatenation([f], out.events);
    OneEvent(e);
    OneEvent(f);
  }

  /** `dedupe` over a trace yields what it yields over the trace's items,
      bound or no bound. */
  lemma {:induction false} DedupeFollowsItems(t: Trace, key: Option<Value -> Value>, maxSize: Option<int>, seen: seq<Value>)
    ensures Yields(DedupeFrom(t, key, maxSize, seen).events) == Distinct(Yields(t.events), KeyFn(key), maxSize, seen)
    decreases |t.events|
  {
    if t.events != [] {
      var e := t.events[0];
      var kf := KeyFn(key);
      assert t == Then([e], Rest(t));
      YieldsThen(e, Rest(t));
      var ys := Yields(Rest(t).events);
      if e.Yield? {
        DistinctCons(e.v, ys, kf, maxSize, seen);
        var k := kf(e.v);
        if k !in seen {
          var later := DedupeFrom(Rest(t), key, maxSize, Remember(seen, k, maxSize));
          DedupeFollowsItems(Rest(t), key, maxSize, Remember(seen, k, maxSize));
          YieldsThen(e, later);
        } else {
          var later := DedupeFrom(Rest(t), key, maxSize, seen);
          DedupeFollowsItems(Rest(t), key, maxSize, seen);
          YieldsThen(Tick(Dropped), later);
        }
      } else {
        var later := DedupeFrom(Rest(t), key, maxSize, seen);
        DedupeFollowsItems(Rest(t), key, maxSize, seen);
        YieldsThen(e, later);
        assert DedupeFrom(t, key, maxSize, seen) == Then([e], later);
        assert Yields(t.events) == ys;
      }
    }
  }

  lemma YieldsThen(e: Event, t: Trace)
    ensures Yields(Then([e], t).events) == (if e.Yield? then [e.v] else []) + Yields(t.events)
  {
    Concatenation([e], t.events);
    OneEvent(e);
  }

  lemma DistinctCons(x: Value, ys: seq<Value>, kf: Value -> Value, maxSize: Option<int>, seen: seq<Value>)
    ensures Distinct([x] + ys, kf, maxSize, seen)
         == if kf(x) !in seen then [x] + Distinct(ys, kf, maxSize, Remember(seen, kf(x), maxSize))
            else Distinct(ys, kf, maxSize, seen)
  {
    assert ([x] + ys)[0] == x;
    assert ([x] + ys)[1..] == ys;
  }

  /** Without a bound, once the record holds exactly the keys of the items
      `before` already seen, the items yielded from now on are those that
      extend the first occurrences of `before` to the first occurrences of
      everything. */
  lemma {:induction false} DedupeFromFirsts(t: Trace, key: Option<Value -> Value>, before: seq<Value>, seen: seq<Value>)
    requires forall k :: k in seen <==> k in Keys(before, KeyFn(key))
    ensures Firsts(before + Yields(t.events), KeyFn(key))
         == Firsts(before, KeyFn(key)) + Yields(DedupeFrom(t, key, None, seen).events)
    decreases |t.events|, 1
  {
    if t.events == [] {
      assert before + Yields(t.events) == before;
    } else {
      var e, rest := t.events[0], Rest(t);
      assert t == Trace([e] + rest.events, rest.end);
      if !e.Yield? {
        DedupeNoise(rest, key, before, seen, e);
      } else if KeyFn(key)(e.v) in seen {
        DedupeRepeat(rest, key, before, seen, e.v);
        Concatenation([e], rest.events);
        SnocJoin(before, e.v, Yields(rest.events));
      } else {
        DedupeNew(rest, key, before, seen, e.v);
        Concatenation([e], rest.events);
        SnocJoin(before, e.v, Yields(rest.events));
      }
    }
  }

  /** The inductive step of `DedupeFromFirsts` for an event that is not an
      item: it passes through and the record is unchanged. */
  lemma {:induction false} DedupeNoise(rest: Trace, key: Option<Value -> Value>, before: seq<Value>, seen: seq<Value>, e: Event)
    requires forall k :: k in seen <==> k in Keys(before, KeyFn(key))
    requires !e.Yield?
    ensures Firsts(before + Yields([e] + rest.events), KeyFn(key))
         == Firsts(before, KeyFn(key)) + Yields(DedupeFrom(Trace([e] + rest.events, rest.end), key, None, seen).events)
    decreases |rest.events| + 1, 0
  {
    var t := Trace([e] + rest.events, rest.end);
    assert t.events[0] == e && Rest(t) == rest;
    var later := DedupeFrom(rest, key, None, seen);
    DedupeFromFirsts(rest, key, before, seen);
    OneEvent(e);
    Concatenation([e], rest.events);
    Concatenation([e], later.events);
    assert DedupeFrom(t, key, None, seen) == Then([e], later);
    assert Yields([e] + rest.events) == Yields(rest.events);
    assert Yields(([e] + later.events)) == Yields(later.events);
  }

  /** The inductive step of `DedupeFromFirsts` for a pulled item `x` whose key
      is new: it is yielded and its key recorded. */
  lemma {:induction false} DedupeNew(rest: Trace, key: Option<Value -> Value>, before: seq<Value>, seen: seq<Value>, x: Value)
    requires forall k :: k in seen <==> k in Keys(before, KeyFn(key))
    requires KeyFn(key)(x) !in seen
    ensures Firsts((before + [x]) + Yields(rest.events), KeyFn(key))
         == Firsts(before, KeyFn(key)) + Yields(DedupeFrom(Trace([Yield(x)] + rest.events, rest.end), key, None, seen).events)
    decreases |rest.events| + 1, 0
  {
    var kf := KeyFn(key);
    var k := kf(x);
    var now := before + [x];
    var seen' := Remember(seen, k, None);
    KeysSnoc(before, x, kf);
    FirstsSnoc(before, x, kf);
    DedupeFromFirsts(rest, key, now, seen') by {
      forall k' ensures k' in seen' <==> k' in Keys(now, kf) {
      }
    }
    KeptStep(rest, key, seen, x);
    SnocJoin(Firsts(before, kf), x, Yields(DedupeFrom(rest, key, None, seen').events));
  }

  /** The inductive step of `DedupeFromFirsts` for a pulled item `x` whose key
      is already recorded: it is dropped and the record is unchanged. */
  lemma {:induction false} DedupeRepeat(rest: Trace, key: Option<Value -> Value>, before: seq<Value>, seen: seq<Value>, x: Value)
    requires forall k :: k in seen <==> k in Keys(before, KeyFn(key))
    requires KeyFn(key)(x) in seen
    ensures Firsts((before + [x]) + Yields(rest.events), KeyFn(key))
         == Firsts(before, KeyFn(key)) + Yields(DedupeFrom(Trace([Yield(x)] + rest.events, rest.end), key, None, seen).events)
    decreases |rest.events| + 1, 0
  {
    var kf := KeyFn(key);
    var now := before + [x];
    assert kf(x) in Keys(before, kf);
    FirstsSnoc(before, x, kf);
    assert Firsts(now, kf) == Firsts(before, kf);
    DedupeFromFirsts(rest, key, now, seen) by {
      KeysSnoc(before, x, kf);
      assert kf(x) in Keys(before, kf);
      assert Keys(now, kf) == Keys(before, kf);
    }
    DroppedStep(rest, key, seen, x);
  }

  lemma KeysSnoc(xs: seq<Value>, x: Value, kf: Value -> Value)
    ensures Keys(xs + [x], kf) == Keys(xs, kf) + {kf(x)}
  {
    KeysAppend(xs, [x], kf);
    KeysOne(x, kf);
  }

  /** Unbounded `dedupe` yields a pulled item with a new key. */
  lemma KeptStep(rest: Trace, key: Option<Value -> Value>, seen: seq<Value>, x: Value)
    requires KeyFn(key)(x) !in seen
    ensures Yields(DedupeFrom(Trace([Yield(x)] + rest.events, rest.end), key, None, seen).events)
         == [x] + Yields(DedupeFrom(rest, key, None, Remember(seen, KeyFn(key)(x), None)).events)
  {
    var t := Trace([Yield(x)] + rest.events, rest.end);
    assert t.events[0] == Yield(x) && Rest(t) == rest;
    var later := DedupeFrom(rest, key, None, Remember(seen, KeyFn(key)(x), None));
    assert DedupeFrom(t, key, None, seen) == Then([Yield(x)], later);
    Concatenation([Yield(x)], later.events);
    OneEvent(Yield(x));
  }

  /** Unbounded `dedupe` drops a pulled item with a recorded key. */
  lemma DroppedStep(rest: Trace, key: Option<Value -> Value>, seen: seq<Value>, x: Value)
    requires KeyFn(key)(x) in seen
    ensures Yields(DedupeFrom(Trace([Yield(x)] + rest.events, rest.end), key, None, seen).events)
         == Yields(DedupeFrom(rest, key, None, seen).events)
  {
    var t := Trace([Yield(x)] + rest.events, rest.end);
    assert t.events[0] == Yield(x) && Rest(t) == rest;
    var later := DedupeFrom(rest, key, None, seen);
    assert DedupeFrom(t, key, None, seen) == Then([Tick(Dropped)], later);
    Concatenation([Tick(Dropped)], later.events);
    OneEvent(Tick(Dropped));
  }

  lemma SnocJoin(a: seq<Value>, x: Value, c: seq<Value>)
    ensures (a + [x]) + c == a + ([x] + c)
  {
  }

  /** Unbounded `dedupe` yields the first occurrence of every key, in
      first-seen order, no key twice, and drops every other item. */
  lemma DedupeFirsts(t: Trace, key: Option<Value -> Value>)
    ensures var out := Dedupe(t, key, None);
            var firsts := Firsts(Yields(t.events), KeyFn(key));
            && Yields(out.events) == firsts
            && (forall i, j :: 0 <= i < j < |firsts| ==> KeyFn(key)(firsts[i]) != KeyFn(key)(firsts[j]))
            && Keys(firsts, KeyFn(key)) == Keys(Yields(t.events), KeyFn(key))
            && Ticks(out.events, Dropped) == Ticks(t.events, Dropped) + |Yields(t.events)| - |firsts|
  {
    DedupeFromFirsts(t, key, [], []);
    assert [] + Yields(t.events) == Yields(t.events);
    assert Firsts([], KeyFn(key)) == [];
    FirstsDistinct(Yields(t.events), KeyFn(key));
    DedupeConserves(t, key, None, []);
  }

  /** A bound that the record never reaches changes nothing: while fewer keys
      have been recorded than the bound allows, nothing is evicted, so bounded
      `dedupe` behaves as unbounded `dedupe`. */
  lemma {:induction false} BoundNeverReached(t: Trace, key: Option<Value -> Value>, maxSize: int, seen: seq<Value>)
    requires |seen| + |Yields(t.events)| <= maxSize
    ensures DedupeFrom(t, key, Some(maxSize), seen) == DedupeFrom(t, key, None, seen)
    decreases |t.events|
  {
    if t.events != [] {
      var e := t.events[0];
      OneEvent(e);
      Concatenation([e], t.events[1..]);
      assert [e] + t.events[1..] == t.events;
      if e.Yield? {
        var k := KeyFn(key)(e.v);
        if k !in seen {
          assert Remember(seen, k, Some(maxSize)) == seen + [k] == Remember(seen, k, None);
          BoundNeverReached(Rest(t), key, maxSize, seen + [k]);
        } else {
          BoundNeverReached(Rest(t), key, maxSize, seen);
        }
      } else {
        BoundNeverReached(Rest(t), key, maxSize, seen);
      }
    }
  }
}
