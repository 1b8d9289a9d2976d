/** The per-item operators: `map`, `flat_map`, `filter`, `tap`, `retry_map` and
    `catch`.  Each of them is a generator of the shape

        for item in iterable:
            <do something for this one item>

    so each is described by what it does for one pulled item (`OnItem`), and one
    transducer (`PerItem`) runs that over the trace of the stage before it:
    events that are not items pass straight through, every item is replaced by
    what the stage does for it, and an exception escaping for one item ends the
    stage there.
 */
module Stages {
  import opened Values
  import opened RunStatsModel
  import opened Seqs
  import opened Traces

  datatype Stage =
    | MapStage(fn: Value -> Value)
    | FlatMapStage(expand: Value -> seq<Value>)
    | FilterStage(pred: Value -> bool)
    | TapStage
    | RetryStage(call: (Value, nat) -> Outcome, retries: int, catches: Exc -> bool)
    | CatchStage(attempt: Value -> Outcome, catches: Exc -> bool)

  /** What the stage does for the item `x`.  The trace ends `Exhausted` when the
      stage goes on to pull the next item, `Failed` when an exception escapes. */
  function OnItem(stage: Stage, site: nat, x: Value): Trace
  {
    match stage
    case MapStage(fn) => Trace([Yield(fn(x))], Exhausted)
    case FlatMapStage(expand) => Trace(Emit(expand(x)), Exhausted)
    case FilterStage(pred) => Trace(if pred(x) then [Yield(x)] else [Tick(Dropped)], Exhausted)
    case TapStage => Trace([Called(site, TapCall(x)), Yield(x)], Exhausted)
    case RetryStage(call, retries, catches) => Retried(call, catches, retries, x)
    case CatchStage(attempt, catches) =>
      match attempt(x)
      case Returned(v) => Trace([Yield(v)], Exhausted)
      case Raised(e) =>
        if catches(e) then Trace([Called(site, ErrorCall(x, e)), Tick(Errors)], Exhausted)
        else Trace([], Failed(e))
  }

  /** The stage running over the trace `t` of the stage before it. */
  function PerItem(t: Trace, stage: Stage, site: nat): Trace
    decreases |t.events|
  {
    if t.events == [] then t
    else
      var e := t.events[0];
      if e.Yield? then
        var now := OnItem(stage, site, e.v);
        if now.end.Failed? then now else Then(now.events, PerItem(Rest(t), stage, site))
      else Then([e], PerItem(Rest(t), stage, site))
  }

  /** Reference: the stage applied to a plain sequence of items, one after the
      other, stopping at the first item for which an exception escapes. */
  function OverItems(xs: seq<Value>, stage: Stage, site: nat): Trace
  {
    if xs == [] then Trace([], Exhausted)
    else
      var now := OnItem(stage, site, xs[0]);
      if now.end.Failed? then now else Then(now.events, OverItems(xs[1..], stage, site))
  }

  // ---------------------------------------------------------------------------
  // retry_map: the attempts for one item

  /** `n` increments of `errors`. */
  function Errs(n: nat): (es: seq<Event>)
    ensures |es| == n && Ticks(es, Errors) == n
  {
    if n == 0 then [] else [Tick(Errors)] + Errs(n - 1)
  }

  /** Attempt number `attempt` and the ones after it, for the item `x`.  `last`
      is the exception of the previous attempt, re-raised once no attempt is left. */
  function Attempts(call: (Value, nat) -> Outcome, catches: Exc -> bool, x: Value,
                    retries: int, attempt: nat, last: Option<Exc>): Trace
    decreases retries + 1 - attempt
  {
    if attempt > retries then Trace([], Failed(if last.Some? then last.value else RaiseNone))
    else
      match call(x, attempt)
      case Returned(v) => Trace([Yield(v)], Exhausted)
      case Raised(e) =>
        if catches(e) then Then([Tick(Errors)], Attempts(call, catches, x, retries, attempt + 1, Some(e)))
        else Trace([], Failed(e))
  }

  /** All attempts for one item. */
  function Retried(call: (Value, nat) -> Outcome, catches: Exc -> bool, retries: int, x: Value): Trace
  {
    Attempts(call, catches, x, retries, 0, None)
  }

  /** Attempt `j` on `x` raised an exception the operator handles. */
  predicate Recoverable(call: (Value, nat) -> Outcome, catches: Exc -> bool, x: Value, j: nat)
  {
    call(x, j).Raised? && catches(call(x, j).exc)
  }

  /** How many attempts on `x` failed recoverably. */
  function Failures(call: (Value, nat) -> Outcome, catches: Exc -> bool, retries: int, x: Value): nat
  {
    Ticks(Retried(call, catches, retries, x).events, Errors)
  }

  /** What the retry loop from attempt `attempt` on does, with `k` the number
      of `errors` increments in its trace `r`: `k` recoverable failures, each
      counted once, then a success that is yielded, a non-recoverable exception
      raised at once, or the last exception re-raised when attempts run out. */
  predicate Shaped(call: (Value, nat) -> Outcome, catches: Exc -> bool, x: Value,
                   retries: int, attempt: nat, r: Trace)
  {
    var k := Ticks(r.events, Errors);
    && (forall j :: attempt <= j < attempt + k ==> Recoverable(call, catches, x, j))
    && (r.end == Exhausted ==>
          attempt + k <= retries && call(x, attempt + k).Returned?
          && r.events == Errs(k) + [Yield(call(x, attempt + k).value)])
    && (r.end.Failed? ==> r.events == Errs(k))
    && (r.end.Failed? && attempt + k <= retries ==>
          call(x, attempt + k).Raised? && !catches(call(x, attempt + k).exc)
          && r.end.exc == call(x, attempt + k).exc)
    && (r.end.Failed? && attempt + k > retries ==>
          if retries < 0 then r.end.exc == RaiseNone && k == 0
          else attempt + k == retries + 1 && call(x, retries) == Raised(r.end.exc))
  }

  /** The retry loop from any attempt on has the shape above. */
  lemma {:induction false} AttemptsFrom(call: (Value, nat) -> Outcome, catches: Exc -> bool, x: Value,
                                        retries: int, attempt: nat, last: Option<Exc>)
    requires attempt == 0 || attempt <= retries + 1
    requires attempt == 0 ==> last == None
    requires attempt > 0 ==> last.Some? && call(x, attempt - 1) == Raised(last.value)
    ensures Shaped(call, catches, x, retries, attempt, Attempts(call, catches, x, retries, attempt, last))
    decreases retries + 1 - attempt
  {
    if attempt > retries {
      AttemptsOut(call, catches, x, retries, attempt, last);
    } else if call(x, attempt).Returned? || !catches(call(x, attempt).exc) {
      AttemptsStop(call, catches, x, retries, attempt, last);
    } else {
      var e := call(x, attempt).exc;
      AttemptsFrom(call, catches, x, retries, attempt + 1, Some(e));
      AttemptsRetry(call, catches, x, retries, attempt, last);
    }
  }

  /** No attempt left: the previous exception, or `raise None`'s, escapes. */
  lemma AttemptsOut(call: (Value, nat) -> Outcome, catches: Exc -> bool, x: Value,
                    retries: int, attempt: nat, last: Option<Exc>)
    requires attempt > retries
    requires attempt == 0 || attempt <= retries + 1
    requires attempt == 0 ==> last == None
    requires attempt > 0 ==> last.Some? && call(x, attempt - 1) == Raised(last.value)
    ensures Shaped(call, catches, x, retries, attempt, Attempts(call, catches, x, retries, attempt, last))
  {
    var r := Attempts(call, catches, x, retries, attempt, last);
    assert r.events == [] && Ticks(r.events, Errors) == 0;
  }

  /** An attempt that returns, or raises what is not handled, ends the loop. */
  lemma AttemptsStop(call: (Value, nat) -> Outcome, catches: Exc -> bool, x: Value,
                     retries: int, attempt: nat, last: Option<Exc>)
    requires attempt <= retries
    requires call(x, attempt).Returned? || !catches(call(x, attempt).exc)
    ensures Shaped(call, catches, x, retries, attempt, Attempts(call, catches, x, retries, attempt, last))
  {
    var r := Attempts(call, catches, x, retries, attempt, last);
    if call(x, attempt).Returned? {
      assert r.events == [Yield(call(x, attempt).value)];
      assert r.events == Errs(0) + r.events;
    } else {
      assert r.events == [];
    }
  }

  /** A handled failure is counted, then the loop goes on with the next attempt. */
  lemma AttemptsRetry(call: (Value, nat) -> Outcome, catches: Exc -> bool, x: Value,
                      retries: int, attempt: nat, last: Option<Exc>)
    requires attempt <= retries
    requires Recoverable(call, catches, x, attempt)
    requires Shaped(call, catches, x, retries, attempt + 1,
                    Attempts(call, catches, x, retries, attempt + 1, Some(call(x, attempt).exc)))
    ensures Shaped(call, catches, x, retries, attempt, Attempts(call, catches, x, retries, attempt, last))
  {
    var r := Attempts(call, catches, x, retries, attempt, last);
    var r' := Attempts(call, catches, x, retries, attempt + 1, Some(call(x, attempt).exc));
    assert r.events == [Tick(Errors)] + r'.events;
    assert r.end == r'.end;
    var k' := Ticks(r'.events, Errors);
    assert r.events[1..] == r'.events;
    assert Ticks(r.events, Errors) == k' + 1;
    if r.end == Exhausted {
      assert r.events == Errs(k' + 1) + [Yield(call(x, attempt + 1 + k').value)];
    } else {
      assert r.events == Errs(k' + 1);
    }
  }

  /** The attempts for one item, as `retry_map` makes them: at most `retries + 1`
      calls; every recoverable failure counted once in `errors`; the first
      success yields its value and nothing else; a non-recoverable exception
      escapes at once and is not counted; when all attempts fail recoverably
      the last exception escapes; a negative `retries` makes no call at all
      and raises the `TypeError` of `raise None`. */
  lemma RetryItem(call: (Value, nat) -> Outcome, catches: Exc -> bool, retries: int, x: Value)
    ensures var r := Retried(call, catches, retries, x);
            var k := Failures(call, catches, retries, x);
            && (forall j :: 0 <= j < k ==> Recoverable(call, catches, x, j))
            && (r.end == Exhausted <==> k <= retries && call(x, k).Returned?)
            && (r.end == Exhausted ==> r.events == Errs(k) + [Yield(call(x, k).value)])
            && (r.end.Failed? ==> r.events == Errs(k))
            && (r.end.Failed? && k <= retries ==>
                  call(x, k).Raised? && !catches(call(x, k).exc) && r.end.exc == call(x, k).exc)
            && (r.end.Failed? && k > retries && retries >= 0 ==> k == retries + 1 && call(x, retries) == Raised(r.end.exc))
            && (retries < 0 ==> r == Trace([], Failed(RaiseNone)))
  {
    AttemptsFrom(call, catches, x, retries, 0, None);
  }

  // ---------------------------------------------------------------------------
  // The transducer against its reference

  /** Running a stage over a trace yields what running it over the trace's items
      yields; it fails exactly when some item fails, and otherwise ends as its
      input ends; and when no item fails, every counter is the input's count
      plus the count of what the stage did for the items. */
  lemma {:induction false} PerItemFollowsItems(t: Trace, stage: Stage, site: nat)
    ensures Follows(t, PerItem(t, stage, site), OverItems(Yields(t.events), stage, site))
    decreases |t.events|
  {
    if t.events != [] {
      var e := t.events[0];
      PerItemFollowsItems(Rest(t), stage, site);
      PerItemUnfold(t, stage, site);
      if e.Yield? && OnItem(stage, site, e.v).end == Exhausted {
        FollowsItem(e.v, OnItem(stage, site, e.v), Rest(t), PerItem(Rest(t), stage, site),
                    OverItems(Yields(Rest(t).events), stage, site));
      } else if !e.Yield? {
        FollowsOther(e, Rest(t), PerItem(Rest(t), stage, site), OverItems(Yields(Rest(t).events), stage, site));
      }
    }
  }

  /** The calls of a callback of this stage are those made for the items; calls
      of other callbacks upstream pass through unchanged when no item fails. */
  lemma {:induction false} PerItemCalls(t: Trace, stage: Stage, site: nat, s: nat)
    ensures CallsFollow(t, PerItem(t, stage, site), OverItems(Yields(t.events), stage, site), s)
    decreases |t.events|
  {
    if t.events != [] {
      var e := t.events[0];
      PerItemCalls(Rest(t), stage, site, s);
      PerItemUnfold(t, stage, site);
      if e.Yield? && OnItem(stage, site, e.v).end == Exhausted {
        CallsFollowItem(e.v, OnItem(stage, site, e.v), Rest(t), PerItem(Rest(t), stage, site),
                        OverItems(Yields(Rest(t).events), stage, site), s);
      } else if !e.Yield? {
        CallsFollowOther(e, Rest(t), PerItem(Rest(t), stage, site), OverItems(Yields(Rest(t).events), stage, site), s);
      }
    }
  }

  /** `out` yields what `ref` yields, fails as `ref` fails and otherwise ends as
      `t` ends, and when `ref` runs to the end every counter of `out` is the sum
      of those of `t` and `ref`. */
  ghost predicate Follows(t: Trace, out: Trace, ref: Trace)
  {
    && Yields(out.events) == Yields(ref.events)
    && out.end == (if ref.end.Failed? then ref.end else t.end)
    && (ref.end == Exhausted ==> forall c :: Ticks(out.events, c) == Ticks(t.events, c) + Ticks(ref.events, c))
  }

  /** The calls at `s` of `out` are those of `ref` when `t` makes none, and
      those of `t` when `ref` runs to the end without making any. */
  ghost predicate CallsFollow(t: Trace, out: Trace, ref: Trace, s: nat)
  {
    && (CallsAt(t.events, s) == [] ==> CallsAt(out.events, s) == CallsAt(ref.events, s))
    && (ref.end == Exhausted && CallsAt(ref.events, s) == [] ==> CallsAt(out.events, s) == CallsAt(t.events, s))
  }

  /** One step of the stage and of its reference. */
  lemma PerItemUnfold(t: Trace, stage: Stage, site: nat)
    requires t.events != []
    ensures var e, ys := t.events[0], Yields(Rest(t).events);
            var out, ref := PerItem(t, stage, site), OverItems(Yields(t.events), stage, site);
            && t == Then([e], Rest(t))
            && (e.Yield? ==> Yields(t.events) == [e.v] + ys)
            && (!e.Yield? ==> Yields(t.events) == ys && out == Then([e], PerItem(Rest(t), stage, site)))
            && (e.Yield? && OnItem(stage, site, e.v).end.Failed? ==> out == ref == OnItem(stage, site, e.v))
            && (e.Yield? && OnItem(stage, site, e.v).end == Exhausted ==>
                  && out == Then(OnItem(stage, site, e.v).events, PerItem(Rest(t), stage, site))
                  && ref == Then(OnItem(stage, site, e.v).events, OverItems(ys, stage, site)))
  {
    var e := t.events[0];
    assert t.events == [e] + Rest(t).events;
    Concatenation([e], Rest(t).events);
    OneEvent(e);
    if e.Yield? {
      assert ([e.v] + Yields(Rest(t).events))[1..] == Yields(Rest(t).events);
    }
  }

  lemma FollowsItem(x: Value, now: Trace, t: Trace, out: Trace, ref: Trace)
    requires now.end == Exhausted
    requires Follows(t, out, ref)
    ensures Follows(Then([Yield(x)], t), Then(now.events, out), Then(now.events, ref))
  {
    Concatenation([Yield(x)], t.events);
    Concatenation(now.events, out.events);
    Concatenation(now.events, ref.events);
    OneEvent(Yield(x));
  }

  lemma FollowsOther(e: Event, t: Trace, out: Trace, ref: Trace)
    requires !e.Yield?
    requires Follows(t, out, ref)
    ensures Follows(Then([e], t), Then([e], out), ref)
  {
    Concatenation([e], t.events);
    Concatenation([e], out.events);
    OneEvent(e);
  }

  lemma CallsFollowItem(x: Value, now: Trace, t: Trace, out: Trace, ref: Trace, s: nat)
    requires now.end == Exhausted
    requires CallsFollow(t, out, ref, s)
    ensures CallsFollow(Then([Yield(x)], t), Then(now.events, out), Then(now.events, ref), s)
  {
    Concatenation([Yield(x)], t.events);
    Concatenation(now.events, out.events);
    Concatenation(now.events, ref.events);
    OneEvent(Yield(x));
  }

  lemma CallsFollowOther(e: Event, t: Trace, out: Trace, ref: Trace, s: nat)
    requires !e.Yield?
    requires CallsFollow(t, out, ref, s)
    ensures CallsFollow(Then([e], t), Then([e], out), ref, s)
  {
    Concatenation([e], t.events);
    Concatenation([e], out.events);
    OneEvent(e);
  }

  /** The first item for which an exception escapes ends the stage with that
      exception, after what was yielded for the items before it. */
  lemma OverItemsStopsAt(xs: seq<Value>, stage: Stage, site: nat, i: nat)
    requires i < |xs|
    requires forall j :: 0 <= j < i ==> OnItem(stage, site, xs[j]).end == Exhausted
    requires OnItem(stage, site, xs[i]).end.Failed?
    ensures OverItems(xs, stage, site).end == OnItem(stage, site, xs[i]).end
    ensures Yields(OverItems(xs, stage, site).events)
         == Yields(OverItems(xs[..i], stage, site).events) + Yields(OnItem(stage, site, xs[i]).events)
  {
    var on := x => OnItem(stage, site, x);
    EachStopsAt(xs, on, i);
    OverItemsEach(xs, stage, site);
    OverItemsEach(xs[..i], stage, site);
  }

  /** The traces for the items one after the other, up to the first that fails:
      `OverItems` with the per-item behaviour left abstract. */
  function Each(xs: seq<Value>, on: Value -> Trace): Trace
  {
    if xs == [] then Trace([], Exhausted)
    else if on(xs[0]).end.Failed? then on(xs[0])
    else Then(on(xs[0]).events, Each(xs[1..], on))
  }

  lemma {:induction false} OverItemsEach(xs: seq<Value>, stage: Stage, site: nat)
    ensures OverItems(xs, stage, site) == Each(xs, x => OnItem(stage, site, x))
  {
    if xs != [] {
      OverItemsEach(xs[1..], stage, site);
    }
  }

  lemma {:induction false} EachStopsAt(xs: seq<Value>, on: Value -> Trace, i: nat)
    requires i < |xs|
    requires forall j :: 0 <= j < i ==> on(xs[j]).end == Exhausted
    requires on(xs[i]).end.Failed?
    ensures StopsAt(xs, on, i)
  {
    if i == 0 {
      assert Each(xs[..0], on) == Trace([], Exhausted);
    } else {
      EachStopsAt(xs[1..], on, i - 1) by {
        forall j | 0 <= j < i - 1 ensures on(xs[1..][j]).end == Exhausted {
          assert xs[1..][j] == xs[j + 1];
        }
        assert xs[1..][i - 1] == xs[i];
      }
      StopsAtCons(xs, on, i);
    }
  }

  /** Over `xs`, item `i` ends the run, which yields what the items before it
      yield and then what item `i` yields. */
  predicate StopsAt(xs: seq<Value>, on: Value -> Trace, i: nat)
    requires i < |xs|
  {
    && Each(xs, on).end == on(xs[i]).end
    && Yields(Each(xs, on).events) == Yields(Each(xs[..i], on).events) + Yields(on(xs[i]).events)
  }

  lemma StopsAtCons(xs: seq<Value>, on: Value -> Trace, i: nat)
    requires 0 < i < |xs|
    requires on(xs[0]).end == Exhausted
    requires StopsAt(xs[1..], on, i - 1)
    ensures StopsAt(xs, on, i)
  {
    var ys, pre := xs[1..], xs[..i];
    assert pre[0] == xs[0];
    assert pre[1..] == ys[..i - 1];
    assert ys[i - 1] == xs[i];
    Concatenation(on(xs[0]).events, Each(ys, on).events);
    Concatenation(on(xs[0]).events, Each(ys[..i - 1], on).events);
  }

  // ---------------------------------------------------------------------------
  // Each stage against its reference on plain items

  /** `map` yields `fn(x)` for every item, in order, and does nothing else. */
  lemma {:induction false} MapItems(xs: seq<Value>, fn: Value -> Value, site: nat)
    ensures OverItems(xs, MapStage(fn), site) == Trace(Emit(MapSeq(xs, fn)), Exhausted)
  {
    if xs != [] {
      MapItems(xs[1..], fn, site);
      assert MapSeq(xs, fn)[1..] == MapSeq(xs[1..], fn);
    }
  }

  /** `flat_map` yields the concatenation of the expansions, in order; an empty
      expansion yields nothing for its item. */
  lemma {:induction false} FlatMapItems(xs: seq<Value>, expand: Value -> seq<Value>, site: nat)
    ensures OverItems(xs, FlatMapStage(expand), site) == Trace(Emit(Concat(MapSeq(xs, expand))), Exhausted)
  {
    if xs != [] {
      FlatMapItems(xs[1..], expand, site);
      assert MapSeq(xs, expand)[1..] == MapSeq(xs[1..], expand);
      EmitAppend(expand(xs[0]), Concat(MapSeq(xs[1..], expand)));
    }
  }

  /** `filter` yields exactly the items satisfying the predicate, in order, and
      counts every rejected item once in `dropped`. */
  lemma {:induction false} FilterItems(xs: seq<Value>, pred: Value -> bool, site: nat)
    ensures var r := OverItems(xs, FilterStage(pred), site);
            && r.end == Exhausted
            && Yields(r.events) == Keep(xs, pred)
            && Ticks(r.events, Dropped) == |Keep(xs, Not(pred))|
            && (forall c :: c != Dropped ==> Ticks(r.events, c) == 0)
            && (forall s :: CallsAt(r.events, s) == [])
  {
    if xs != [] {
      FilterItems(xs[1..], pred, site);
      var now := OnItem(FilterStage(pred), site, xs[0]);
      Concatenation(now.events, OverItems(xs[1..], FilterStage(pred), site).events);
    }
  }

  function TapOf(x: Value): Call
  {
    TapCall(x)
  }

  /** `tap` calls its callback once with every item, just before yielding the
      item unchanged. */
  lemma {:induction false} TapItems(xs: seq<Value>, site: nat)
    ensures var r := OverItems(xs, TapStage, site);
            && r.end == Exhausted
            && Yields(r.events) == xs
            && CallsAt(r.events, site) == MapSeq(xs, TapOf)
            && (forall s :: s != site ==> CallsAt(r.events, s) == [])
            && (forall c :: Ticks(r.events, c) == 0)
  {
    if xs != [] {
      TapItems(xs[1..], site);
      var now := OnItem(TapStage, site, xs[0]);
      Concatenation(now.events, OverItems(xs[1..], TapStage, site).events);
      assert MapSeq(xs, TapOf)[1..] == MapSeq(xs[1..], TapOf);
    }
  }

  /** The values of the calls that returned, in order. */
  function Returns(outs: seq<Outcome>): seq<Value>
  {
    if outs == [] then []
    else (if outs[0].Returned? then [outs[0].value] else []) + Returns(outs[1..])
  }

  /** The error-handler calls for the items whose call raised, in order. */
  function Recoveries(xs: seq<Value>, attempt: Value -> Outcome): seq<Call>
  {
    if xs == [] then []
    else (if attempt(xs[0]).Raised? then [ErrorCall(xs[0], attempt(xs[0]).exc)] else []) + Recoveries(xs[1..], attempt)
  }

  /** The call on `x` raised an exception the operator does not handle. */
  predicate Fatal(attempt: Value -> Outcome, catches: Exc -> bool, x: Value)
  {
    attempt(x).Raised? && !catches(attempt(x).exc)
  }

  /** `catch` with no unhandled exception yields the returned values in order,
      calls the error handler once for every other item, counts each of those
      once in `errors`, and every item does exactly one of the two. */
  lemma {:induction false} CatchItems(xs: seq<Value>, attempt: Value -> Outcome, catches: Exc -> bool, site: nat)
    requires forall i :: 0 <= i < |xs| ==> !Fatal(attempt, catches, xs[i])
    ensures var r := OverItems(xs, CatchStage(attempt, catches), site);
            && r.end == Exhausted
            && Yields(r.events) == Returns(MapSeq(xs, attempt))
            && CallsAt(r.events, site) == Recoveries(xs, attempt)
            && Ticks(r.events, Errors) == |Recoveries(xs, attempt)|
            && |Returns(MapSeq(xs, attempt))| + |Recoveries(xs, attempt)| == |xs|
            && (forall c :: c != Errors ==> Ticks(r.events, c) == 0)
            && (forall s :: s != site ==> CallsAt(r.events, s) == [])
  {
    if xs != [] {
      CatchItems(xs[1..], attempt, catches, site);
      CatchItem(attempt, catches, xs[0], site);
      var now := OnItem(CatchStage(attempt, catches), site, xs[0]);
      Concatenation(now.events, OverItems(xs[1..], CatchStage(attempt, catches), site).events);
      assert MapSeq(xs, attempt)[0] == attempt(xs[0]);
      assert MapSeq(xs, attempt)[1..] == MapSeq(xs[1..], attempt);
    }
  }

  /** `catch` on one item whose exception, if any, is handled. */
  lemma CatchItem(attempt: Value -> Outcome, catches: Exc -> bool, x: Value, site: nat)
    requires !Fatal(attempt, catches, x)
    ensures var now := OnItem(CatchStage(attempt, catches), site, x);
            && now.end == Exhausted
            && Yields(now.events) == (if attempt(x).Returned? then [attempt(x).value] else [])
            && CallsAt(now.events, site) == (if attempt(x).Raised? then [ErrorCall(x, attempt(x).exc)] else [])
            && Ticks(now.events, Errors) == (if attempt(x).Raised? then 1 else 0)
            && (forall c :: c != Errors ==> Ticks(now.events, c) == 0)
            && (forall s :: s != site ==> CallsAt(now.events, s) == [])
  {
    var now := OnItem(CatchStage(attempt, catches), site, x);
    if attempt(x).Returned? {
      OneEvent(Yield(attempt(x).value));
    } else {
      var e := attempt(x).exc;
      Concatenation([Called(site, ErrorCall(x, e))], [Tick(Errors)]);
      OneEvent(Called(site, ErrorCall(x, e)));
      OneEvent(Tick(Errors));
      assert now.events == [Called(site, ErrorCall(x, e))] + [Tick(Errors)];
    }
  }

  /** Sum of the recoverable failures over the items. */
  function TotalFailures(call: (Value, nat) -> Outcome, catches: Exc -> bool, retries: int, xs: seq<Value>): nat
  {
    if xs == [] then 0 else Failures(call, catches, retries, xs[0]) + TotalFailures(call, catches, retries, xs[1..])
  }

  /** `retry_map` where every item eventually succeeds yields one value per
      item, in order: the value of the item's first successful attempt, whose
      number is the item's count of failures; `errors` grows by the total of
      those failures. */
  lemma {:induction false} RetryItems(xs: seq<Value>, call: (Value, nat) -> Outcome, catches: Exc -> bool,
                                      retries: int, site: nat)
    requires forall i :: 0 <= i < |xs| ==> Retried(call, catches, retries, xs[i]).end == Exhausted
    ensures var r := OverItems(xs, RetryStage(call, retries, catches), site);
            && r.end == Exhausted
            && |Yields(r.events)| == |xs|
            && (forall i :: 0 <= i < |xs| ==>
                  call(xs[i], Failures(call, catches, retries, xs[i])) == Returned(Yields(r.events)[i]))
            && Ticks(r.events, Errors) == TotalFailures(call, catches, retries, xs)
            && (forall c :: c != Errors ==> Ticks(r.events, c) == 0)
            && (forall s :: CallsAt(r.events, s) == [])
  {
    if xs != [] {
      var stage := RetryStage(call, retries, catches);
      RetryItems(xs[1..], call, catches, retries, site);
      RetryOne(call, catches, retries, xs[0], site);
      var now := OnItem(stage, site, xs[0]);
      var later := OverItems(xs[1..], stage, site);
      Concatenation(now.events, later.events);
      var r := OverItems(xs, stage, site);
      assert r == Then(now.events, later);
      forall i | 0 < i < |xs|
        ensures call(xs[i], Failures(call, catches, retries, xs[i])) == Returned(Yields(r.events)[i])
      {
        assert xs[i] == xs[1..][i - 1];
      }
    }
  }

  /** `retry_map` on one item that eventually succeeds: one value, the
      failures counted in `errors`, nothing else. */
  lemma RetryOne(call: (Value, nat) -> Outcome, catches: Exc -> bool, retries: int, x: Value, site: nat)
    requires Retried(call, catches, retries, x).end == Exhausted
    ensures var now := OnItem(RetryStage(call, retries, catches), site, x);
            var k := Failures(call, catches, retries, x);
            && now.end == Exhausted
            && |Yields(now.events)| == 1
            && call(x, k) == Returned(Yields(now.events)[0])
            && Ticks(now.events, Errors) == k
            && (forall c :: c != Errors ==> Ticks(now.events, c) == 0)
            && (forall s :: CallsAt(now.events, s) == [])
  {
    RetryItem(call, catches, retries, x);
    var k := Failures(call, catches, retries, x);
    var v := call(x, k).value;
    Concatenation(Errs(k), [Yield(v)]);
    ErrsQuiet(k);
    OneEvent(Yield(v));
  }

  lemma {:induction false} ErrsQuiet(n: nat)
    ensures Yields(Errs(n)) == []
    ensures forall c :: c != Errors ==> Ticks(Errs(n), c) == 0
    ensures forall s :: CallsAt(Errs(n), s) == []
  {
    if n > 0 {
      ErrsQuiet(n - 1);
    }
  }

  // ---------------------------------------------------------------------------
  // What a per-item stage never does

  /** The attempts for an item never pull from upstream and call no callback. */
  lemma {:induction false} AttemptsQuiet(call: (Value, nat) -> Outcome, catches: Exc -> bool, x: Value,
                                         retries: int, attempt: nat, last: Option<Exc>)
    ensures var r := Attempts(call, catches, x, retries, attempt, last);
            && Ticks(r.events, Processed) == 0
            && (forall s :: CallsAt(r.events, s) == [])
    decreases retries + 1 - attempt
  {
    if attempt <= retries {
      match call(x, attempt)
      case Returned(v) =>
        OneEvent(Yield(v));
      case Raised(e) =>
        if catches(e) {
          var later := Attempts(call, catches, x, retries, attempt + 1, Some(e));
          AttemptsQuiet(call, catches, x, retries, attempt + 1, Some(e));
          OneEvent(Tick(Errors));
          Concatenation([Tick(Errors)], later.events);
        }
    }
  }

  /** What a stage does for one item involves no pull from upstream, and only
      the stage's own callbacks are called. */
  lemma OnItemScope(stage: Stage, site: nat, x: Value)
    ensures var r := OnItem(stage, site, x);
            && Ticks(r.events, Processed) == 0
            && (forall s :: s != site ==> CallsAt(r.events, s) == [])
  {
    match stage
    case MapStage(fn) =>
      OneEvent(Yield(fn(x)));
    case FlatMapStage(expand) =>
    case FilterStage(pred) =>
      OneEvent(Yield(x));
      OneEvent(Tick(Dropped));
    case TapStage =>
      OneEvent(Called(site, TapCall(x)));
      OneEvent(Yield(x));
      Concatenation([Called(site, TapCall(x))], [Yield(x)]);
      assert [Called(site, TapCall(x))] + [Yield(x)] == [Called(site, TapCall(x)), Yield(x)];
    case RetryStage(call, retries, catches) =>
      AttemptsQuiet(call, catches, x, retries, 0, None);
    case CatchStage(attempt, catches) =>
      match attempt(x)
      case Returned(v) =>
        OneEvent(Yield(v));
      case Raised(e) =>
        OneEvent(Called(site, ErrorCall(x, e)));
        OneEvent(Tick(Errors));
        Concatenation([Called(site, ErrorCall(x, e))], [Tick(Errors)]);
        assert [Called(site, ErrorCall(x, e))] + [Tick(Errors)] == [Called(site, ErrorCall(x, e)), Tick(Errors)];
  }

  /** A per-item stage pulls no more source items than the stages before it,
      exactly as many when it runs to the end, ends early only by its own
      exception, and adds no call of any other operator's callback. */
  lemma {:induction false} PerItemScope(t: Trace, stage: Stage, site: nat)
    ensures var out := PerItem(t, stage, site);
            && Ticks(out.events, Processed) <= Ticks(t.events, Processed)
            && (out.end == Exhausted ==> t.end == Exhausted && Ticks(out.events, Processed) == Ticks(t.events, Processed))
            && (forall s :: s != site && CallsAt(t.events, s) == [] ==> CallsAt(out.events, s) == [])
    decreases |t.events|
  {
    if t.events != [] {
      var e := t.events[0];
      var later := PerItem(Rest(t), stage, site);
      PerItemScope(Rest(t), stage, site);
      OneEvent(e);
      Concatenation([e], t.events[1..]);
      assert [e] + t.events[1..] == t.events;
      if e.Yield? {
        var now := OnItem(stage, site, e.v);
        OnItemScope(stage, site, e.v);
        if !now.end.Failed? {
          Concatenation(now.events, later.events);
        }
      } else {
        Concatenation([e], later.events);
      }
    }
  }
}
