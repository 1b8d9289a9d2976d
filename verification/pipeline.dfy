/** The pipeline: an immutable `Pipe` holding a source and the operators
    registered on it, in order, and `run`, which wraps the source in a layer
    counting `processed`, stacks the operators on it in registration order,
    drains the last one counting `emitted`, and hands every drained item to the
    sink.  Nothing happens before `run`: a `Pipe` is only a description. */
module Pipeline {
  import opened Values
  import opened RunStatsModel
  import opened Seqs
  import opened Traces
  import opened Stages
  import opened Batching
  import opened Deduplication
  import opened Taking

  /** A registered operator. */
  datatype Op =
    | PerItemOp(stage: Stage)
    | PacedOp
    | BatchOp(size: int)
    | DedupeOp(key: Option<Value -> Value>, maxSize: Option<int>)
    | TakeOp(n: int)

  /** The operator at position `site` run over the trace of the stage before it.
      Rate limiting only waits, so it passes everything through. */
  function Apply(op: Op, t: Trace, site: nat): Trace
  {
    match op
    case PerItemOp(stage) => PerItem(t, stage, site)
    case PacedOp => t
    case BatchOp(size) => Batch(t, size)
    case DedupeOp(key, maxSize) => Dedupe(t, key, maxSize)
    case TakeOp(n) => Take(t, n)
  }

  /** Stacking the operators `ops`, the first of which sits at position `site`,
      one after the other on the stage `t`. */
  function Fold(ops: seq<Op>, t: Trace, site: nat): Trace
  {
    if ops == [] then t else Fold(ops[1..], Apply(ops[0], t, site), site + 1)
  }

  /** Python's `Exception`: every exception except the three that derive only
      from `BaseException`. */
  predicate AnyException(e: Exc)
  {
    e.kind != "KeyboardInterrupt" && e.kind != "SystemExit" && e.kind != "GeneratorExit"
  }

  /** What `run` hands back: the items the sink received, in order, and the
      counters. */
  datatype Report = Report(items: seq<Value>, stats: RunStats)

  /** A run either completes, or an exception escapes from `run` after the sink
      has received `delivered`; then no statistics are returned. */
  datatype RunResult = Completed(report: Report) | Aborted(delivered: seq<Value>, exc: Exc)

  /** The counters after the events `es`: each operator increments its own
      counter, and `emitted` counts the items drained from the last stage. */
  function Tally(es: seq<Event>): (r: RunStats)
    ensures r.emitted == |Yields(es)|
  {
    RunStats(Ticks(es, Processed), |Yields(es)|, Ticks(es, Dropped), Ticks(es, Batches), Ticks(es, Errors))
  }

  /** What a builder call gives back: the new pipe, or the exception the call
      itself raises, before any run. */
  datatype Built = Built(pipe: Pipe) | Refused(exc: Exc)

  datatype Pipe = Pipe(source: seq<Value>, ops: seq<Op>)
  {
    /** A new pipe with `op` registered last; `this` is left as it was. */
    function AddOp(op: Op): (q: Pipe)
      ensures q.source == source
      ensures |q.ops| == |ops| + 1 && q.ops[..|ops|] == ops && q.ops[|ops|] == op
    {
      Pipe(source, ops + [op])
    }

    function Map(fn: Value -> Value): Pipe
    {
      AddOp(PerItemOp(MapStage(fn)))
    }

    function FlatMap(fn: Value -> seq<Value>): Pipe
    {
      AddOp(PerItemOp(FlatMapStage(fn)))
    }

    function Filter(fn: Value -> bool): Pipe
    {
      AddOp(PerItemOp(FilterStage(fn)))
    }

    /** The callback itself is not needed: its calls are recorded in the trace. */
    function Tap(): Pipe
    {
      AddOp(PerItemOp(TapStage))
    }

    function Batch(size: int): Pipe
    {
      AddOp(BatchOp(size))
    }

    /** `rate_limit(rate, per)` divides `per` by `rate` when it is called, before
        any run, so a zero rate raises `ZeroDivisionError` and registers
        nothing; otherwise the operator it registers only waits. */
    function RateLimit(rate: real, per: real := 1.0): (r: Built)
      ensures r.Refused? <==> rate == 0.0
      ensures r.Refused? ==> r.exc == ZeroDivision
      ensures r.Built? ==> r.pipe.source == source && |r.pipe.ops| == |ops| + 1 && r.pipe.ops[..|ops|] == ops
    {
      if rate == 0.0 then Refused(ZeroDivision) else Built(AddOp(PacedOp))
    }

    function Dedupe(key: Option<Value -> Value> := None, maxSize: Option<int> := None): Pipe
    {
      AddOp(DedupeOp(key, maxSize))
    }

    /** `fn(item, attempt)` is the outcome of attempt number `attempt` on `item`;
        `catches` tells which exceptions are retried. */
    function RetryMap(fn: (Value, nat) -> Outcome, retries: int := 3, catches: Exc -> bool := AnyException): Pipe
    {
      AddOp(PerItemOp(RetryStage(fn, retries, catches)))
    }

    function Take(n: int): Pipe
    {
      AddOp(TakeOp(n))
    }

    function Catch(fn: Value -> Outcome, catches: Exc -> bool := AnyException): Pipe
    {
      AddOp(PerItemOp(CatchStage(fn, catches)))
    }

    /** Everything a run does, from the counted source through every operator
        in registration order. */
    function Execution(): Trace
    {
      Fold(ops, Source(source), 0)
    }

    /** `run(sink)`: the sink receives every item drained from the last stage,
        `emitted` counts each of them, and an exception escaping from any stage
        ends the run without statistics. */
    function Run(): (r: RunResult)
      ensures r.Completed? <==> Execution().end == Exhausted
      ensures r.Completed? ==> r.report.stats.emitted == |r.report.items|
    {
      var t := Execution();
      match t.end
      case Exhausted => Completed(Report(Yields(t.events), Tally(t.events)))
      case Failed(e) => Aborted(Yields(t.events), e)
    }
  }

  // ---------------------------------------------------------------------------
  // Composition

  /** Folding `ops + [op]` is folding `ops` and then applying `op` at the next
      position. */
  lemma {:induction false} FoldSnoc(ops: seq<Op>, op: Op, t: Trace, site: nat)
    ensures Fold(ops + [op], t, site) == Apply(op, Fold(ops, t, site), site + |ops|)
    decreases |ops|
  {
    if ops == [] {
      assert [] + [op] == [op];
    } else {
      assert (ops + [op])[0] == ops[0];
      assert (ops + [op])[1..] == ops[1..] + [op];
      FoldSnoc(ops[1..], op, Apply(ops[0], t, site), site + 1);
    }
  }

  /** Operators compose in registration order: registering `op` runs it over
      everything the pipe did before, at the next position. */
  lemma AddOpComposes(p: Pipe, op: Op)
    ensures p.AddOp(op).Execution() == Apply(op, p.Execution(), |p.ops|)
  {
    FoldSnoc(p.ops, op, Source(p.source), 0);
  }

  /** The pipe with its last operator removed. */
  function Prior(p: Pipe): (q: Pipe)
    requires p.ops != []
    ensures q.AddOp(p.ops[|p.ops| - 1]) == p
  {
    Pipe(p.source, p.ops[..|p.ops| - 1])
  }

  // ---------------------------------------------------------------------------
  // Each operator added to any pipe

  /** `map(fn)` yields `fn(x)` for every item of the pipe, in order, and
      changes no counter, callback or ending. */
  lemma MapStep(p: Pipe, fn: Value -> Value)
    ensures var before, after := p.Execution(), p.Map(fn).Execution();
            && Yields(after.events) == MapSeq(Yields(before.events), fn)
            && after.end == before.end
            && (forall c :: Ticks(after.events, c) == Ticks(before.events, c))
            && (forall s :: CallsAt(after.events, s) == CallsAt(before.events, s))
  {
    var before, stage := p.Execution(), MapStage(fn);
    AddOpComposes(p, PerItemOp(stage));
    PerItemFollowsItems(before, stage, |p.ops|);
    MapItems(Yields(before.events), fn, |p.ops|);
    forall s ensures CallsAt(p.Map(fn).Execution().events, s) == CallsAt(before.events, s) {
      PerItemCalls(before, stage, |p.ops|, s);
    }
  }

  /** `flat_map(fn)` yields the concatenation of `fn(x)` over the items, in
      order, and changes no counter, callback or ending. */
  lemma FlatMapStep(p: Pipe, fn: Value -> seq<Value>)
    ensures var before, after := p.Execution(), p.FlatMap(fn).Execution();
            && Yields(after.events) == Concat(MapSeq(Yields(before.events), fn))
            && after.end == before.end
            && (forall c :: Ticks(after.events, c) == Ticks(before.events, c))
            && (forall s :: CallsAt(after.events, s) == CallsAt(before.events, s))
  {
    var before, stage := p.Execution(), FlatMapStage(fn);
    AddOpComposes(p, PerItemOp(stage));
    PerItemFollowsItems(before, stage, |p.ops|);
    FlatMapItems(Yields(before.events), fn, |p.ops|);
    forall s ensures CallsAt(p.FlatMap(fn).Execution().events, s) == CallsAt(before.events, s) {
      PerItemCalls(before, stage, |p.ops|, s);
    }
  }

  /** `filter(fn)` yields exactly the items satisfying `fn`, in order; every
      other item adds one to `dropped`, so the items yielded and the growth of
      `dropped` add up to the items pulled. */
  lemma FilterStep(p: Pipe, fn: Value -> bool)
    ensures var before, after := p.Execution(), p.Filter(fn).Execution();
            var xs := Yields(before.events);
            && Yields(after.events) == Keep(xs, fn)
            && Ticks(after.events, Dropped) == Ticks(before.events, Dropped) + |Keep(xs, Not(fn))|
            && |Yields(after.events)| + (Ticks(after.events, Dropped) - Ticks(before.events, Dropped)) == |xs|
            && after.end == before.end
            && (forall c :: c != Dropped ==> Ticks(after.events, c) == Ticks(before.events, c))
            && (forall s :: CallsAt(after.events, s) == CallsAt(before.events, s))
  {
    var before, stage := p.Execution(), FilterStage(fn);
    AddOpComposes(p, PerItemOp(stage));
    PerItemFollowsItems(before, stage, |p.ops|);
    FilterItems(Yields(before.events), fn, |p.ops|);
    KeepPartition(Yields(before.events), fn);
    forall s ensures CallsAt(p.Filter(fn).Execution().events, s) == CallsAt(before.events, s) {
      PerItemCalls(before, stage, |p.ops|, s);
    }
  }

  /** `tap` yields its input unchanged and calls its callback once per item,
      in order; nothing else changes. */
  lemma TapStep(p: Pipe)
    ensures var before, after := p.Execution(), p.Tap().Execution();
            && Yields(after.events) == Yields(before.events)
            && CallsAt(after.events, |p.ops|) == MapSeq(Yields(before.events), TapOf)
            && after.end == before.end
            && (forall c :: Ticks(after.events, c) == Ticks(before.events, c))
            && (forall s :: s != |p.ops| ==> CallsAt(after.events, s) == CallsAt(before.events, s))
  {
    var before, site := p.Execution(), |p.ops|;
    AddOpComposes(p, PerItemOp(TapStage));
    PerItemFollowsItems(before, TapStage, site);
    TapItems(Yields(before.events), site);
    CallsOnlyBelow(p, site);
    forall s ensures CallsAt(p.Tap().Execution().events, s) == (if s == site then MapSeq(Yields(before.events), TapOf) else CallsAt(before.events, s)) {
      PerItemCalls(before, TapStage, site, s);
    }
  }

  /** `rate_limit(rate, per)` fails to register exactly when `rate` is zero;
      otherwise it changes nothing but timing. */
  lemma RateLimitStep(p: Pipe, rate: real, per: real)
    ensures var r := p.RateLimit(rate, per);
            && (r.Refused? <==> rate == 0.0)
            && (r.Built? ==> r.pipe.Execution() == p.Execution())
  {
    AddOpComposes(p, PacedOp);
  }

  /** `batch(size)` over a pipe that runs out yields its items in groups, as
      lists, which concatenate back to the items; every group is non-empty,
      all but the last hold exactly `size` items, there are `ceil(N / size)` of
      them, and `batches` grows by that number.  A size below one never fills
      a group, so all the items come out as one. */
  lemma BatchStep(p: Pipe, size: int)
    requires p.Execution().end == Exhausted
    ensures var before, after := p.Execution(), p.Batch(size).Execution();
            var xs := Yields(before.events);
            var groups := Chunks(xs, size);
            && Yields(after.events) == MapSeq(groups, AsList)
            && Concat(groups) == xs
            && (size >= 1 ==> forall i :: 0 <= i < |groups| ==> 0 < |groups[i]| <= size)
            && (size >= 1 ==> forall i :: 0 <= i < |groups| - 1 ==> |groups[i]| == size)
            && (size >= 1 ==> |groups| == (|xs| + size - 1) / size)
            && (size <= 0 && xs != [] ==> groups == [xs])
            && Ticks(after.events, Batches) == Ticks(before.events, Batches) + |groups|
            && after.end == Exhausted
            && (forall c :: c != Batches ==> Ticks(after.events, c) == Ticks(before.events, c))
            && (forall s :: CallsAt(after.events, s) == CallsAt(before.events, s))
  {
    var before := p.Execution();
    AddOpComposes(p, BatchOp(size));
    BatchGroups(before, size);
    BatchFromPassesThrough(before, size, []);
    if size >= 1 {
      ChunksShape(Yields(before.events), size);
    }
  }

  /** `dedupe(key)` without a bound yields the first item of every key, in
      first-seen order, never two items with the same key, and every key that
      occurs; every other item adds one to `dropped`, so the items yielded and
      the growth of `dropped` add up to the items pulled. */
  lemma DedupeStep(p: Pipe, key: Option<Value -> Value>)
    ensures var before, after := p.Execution(), p.Dedupe(key, None).Execution();
            var xs := Yields(before.events);
            var out := Yields(after.events);
            && out == Firsts(xs, KeyFn(key))
            && out == Distinct(xs, KeyFn(key), None, [])
            && Subsequence(out, xs)
            && (forall i, j :: 0 <= i < j < |out| ==> KeyFn(key)(out[i]) != KeyFn(key)(out[j]))
            && Keys(out, KeyFn(key)) == Keys(xs, KeyFn(key))
            && |out| + (Ticks(after.events, Dropped) - Ticks(before.events, Dropped)) == |xs|
            && after.end == before.end
            && (forall c :: c != Dropped ==> Ticks(after.events, c) == Ticks(before.events, c))
            && (forall s :: CallsAt(after.events, s) == CallsAt(before.events, s))
  {
    var before := p.Execution();
    AddOpComposes(p, DedupeOp(key, None));
    DedupeFirsts(before, key);
    DistinctSubsequence(Yields(before.events), KeyFn(key), None, []);
    DedupeConserves(before, key, None, []);
    DedupeFollowsItems(before, key, None, []);
  }

  /** `dedupe(key, max_size)` with a bound yields a subsequence of the items
      pulled that still covers every key among them; the record of keys never
      grows past the bound, at any point of the stream; the items yielded and
      the growth of `dropped` add up to the items pulled; and a bound at least
      the number of items changes nothing. */
  lemma BoundedDedupeStep(p: Pipe, key: Option<Value -> Value>, maxSize: int)
    ensures var before, after := p.Execution(), p.Dedupe(key, Some(maxSize)).Execution();
            var xs := Yields(before.events);
            var out := Yields(after.events);
            && out == Distinct(xs, KeyFn(key), Some(maxSize), [])
            && Subsequence(out, xs)
            && Keys(out, KeyFn(key)) == Keys(xs, KeyFn(key))
            && (forall i :: 0 <= i <= |xs| ==> RecordAt(xs, KeyFn(key), maxSize, i))
            && |out| + (Ticks(after.events, Dropped) - Ticks(before.events, Dropped)) == |xs|
            && after.end == before.end
            && (forall c :: c != Dropped ==> Ticks(after.events, c) == Ticks(before.events, c))
            && (|xs| <= maxSize ==> after == p.Dedupe(key, None).Execution())
  {
    var before := p.Execution();
    var xs := Yields(before.events);
    AddOpComposes(p, DedupeOp(key, Some(maxSize)));
    AddOpComposes(p, DedupeOp(key, None));
    DedupeConserves(before, key, Some(maxSize), []);
    DedupeFollowsItems(before, key, Some(maxSize), []);
    DistinctSubsequence(xs, KeyFn(key), Some(maxSize), []);
    DistinctKeys(xs, KeyFn(key), Some(maxSize), []);
    assert Members([]) == {};
    BoundedRecord(xs, KeyFn(key), maxSize);
    if |xs| <= maxSize {
      BoundNeverReached(before, key, maxSize, []);
    }
  }

  /** `take(n)` yields the first `min(n, N)` items; what happens is a prefix of
      what the pipe would do, cut off when item `n + 1` is pulled, so no
      counter grows past the pipe's. */
  lemma TakeStep(p: Pipe, n: int)
    ensures var before, after := p.Execution(), p.Take(n).Execution();
            var xs := Yields(before.events);
            && Yields(after.events) == xs[..Min(Room(n, 0), |xs|)]
            && after.events <= before.events
            && (|xs| <= Room(n, 0) ==> after == before)
            && (|xs| > Room(n, 0) ==> after.end == Exhausted && |after.events| < |before.events| && before.events[|after.events|].Yield?)
            && (forall c :: Ticks(after.events, c) <= Ticks(before.events, c))
  {
    AddOpComposes(p, TakeOp(n));
    TakePrefix(p.Execution(), n);
  }

  /** `retry_map` over a pipe whose every item eventually succeeds yields, for
      each item in order, the value of its first successful attempt, and
      `errors` grows by the number of failed attempts. */
  lemma RetryStep(p: Pipe, fn: (Value, nat) -> Outcome, retries: int, catches: Exc -> bool)
    requires var xs := Yields(p.Execution().events);
             forall i :: 0 <= i < |xs| ==> Retried(fn, catches, retries, xs[i]).end == Exhausted
    ensures var before, after := p.Execution(), p.RetryMap(fn, retries, catches).Execution();
            var xs := Yields(before.events);
            var ys := Yields(after.events);
            && |ys| == |xs|
            && (forall i :: 0 <= i < |xs| ==> fn(xs[i], Failures(fn, catches, retries, xs[i])) == Returned(ys[i]))
            && after.end == before.end
            && (before.end == Exhausted ==> Ticks(after.events, Errors) == Ticks(before.events, Errors) + TotalFailures(fn, catches, retries, xs))
            && (before.end == Exhausted ==> forall c :: c != Errors ==> Ticks(after.events, c) == Ticks(before.events, c))
  {
    assert forall i :: 0 <= i < |Yields(p.Execution().events)| ==> Retried(fn, catches, retries, Yields(p.Execution().events)[i]).end == Exhausted;
    var before, stage := p.Execution(), RetryStage(fn, retries, catches);
    var xs := Yields(before.events);
    assert forall i :: 0 <= i < |xs| ==> Retried(fn, catches, retries, xs[i]).end == Exhausted;
    RetryItems(xs, fn, catches, retries, |p.ops|);
    AddOpComposes(p, PerItemOp(stage));
    PerItemFollowsItems(before, stage, |p.ops|);
  }

  /** `retry_map` ends the run with the exception of the first item whose
      attempts all fail or that raises an exception it does not retry, after
      yielding one value for each item before it. */
  lemma RetryAborts(p: Pipe, fn: (Value, nat) -> Outcome, retries: int, catches: Exc -> bool, i: nat)
    requires var xs := Yields(p.Execution().events);
             && i < |xs|
             && (forall j :: 0 <= j < i ==> Retried(fn, catches, retries, xs[j]).end == Exhausted)
             && Retried(fn, catches, retries, xs[i]).end.Failed?
    ensures var xs := Yields(p.Execution().events);
            var r := p.RetryMap(fn, retries, catches).Run();
            && r.Aborted?
            && r.exc == Retried(fn, catches, retries, xs[i]).end.exc
            && |r.delivered| == i
            && (forall j :: 0 <= j < i ==> fn(xs[j], Failures(fn, catches, retries, xs[j])) == Returned(r.delivered[j]))
  {
    var before, stage, site := p.Execution(), RetryStage(fn, retries, catches), |p.ops|;
    var xs := Yields(before.events);
    AddOpComposes(p, PerItemOp(stage));
    PerItemFollowsItems(before, stage, site);
    OverItemsStopsAt(xs, stage, site, i);
    RetryItems(xs[..i], fn, catches, retries, site) by {
      forall j | 0 <= j < i ensures Retried(fn, catches, retries, xs[..i][j]).end == Exhausted {
        assert xs[..i][j] == xs[j];
      }
    }
    RetryItem(fn, catches, retries, xs[i]);
    ErrsQuiet(Failures(fn, catches, retries, xs[i]));
  }

  /** `catch(fn)` with no exception it does not handle yields `fn(x)` for the
      items whose call returns and calls the error handler once for each
      other item, counting each of those once in `errors`. */
  lemma CatchStep(p: Pipe, fn: Value -> Outcome, catches: Exc -> bool)
    requires var xs := Yields(p.Execution().events);
             forall i :: 0 <= i < |xs| ==> !Fatal(fn, catches, xs[i])
    ensures var before, after := p.Execution(), p.Catch(fn, catches).Execution();
            var xs := Yields(before.events);
            && Yields(after.events) == Returns(MapSeq(xs, fn))
            && CallsAt(after.events, |p.ops|) == Recoveries(xs, fn)
            && |Yields(after.events)| + |Recoveries(xs, fn)| == |xs|
            && after.end == before.end
            && (before.end == Exhausted ==> Ticks(after.events, Errors) == Ticks(before.events, Errors) + |Recoveries(xs, fn)|)
            && (before.end == Exhausted ==> forall c :: c != Errors ==> Ticks(after.events, c) == Ticks(before.events, c))
  {
    assert forall i :: 0 <= i < |Yields(p.Execution().events)| ==> !Fatal(fn, catches, Yields(p.Execution().events)[i]);
    var before, stage, site := p.Execution(), CatchStage(fn, catches), |p.ops|;
    var xs := Yields(before.events);
    assert forall i :: 0 <= i < |xs| ==> !Fatal(fn, catches, xs[i]);
    CatchItems(xs, fn, catches, site);
    AddOpComposes(p, PerItemOp(stage));
    PerItemFollowsItems(before, stage, site);
    CallsOnlyBelow(p, site);
    PerItemCalls(before, stage, site, site);
  }

  /** `catch(fn)` ends the run with the first exception it does not handle. */
  lemma CatchAborts(p: Pipe, fn: Value -> Outcome, catches: Exc -> bool, i: nat)
    requires var xs := Yields(p.Execution().events);
             && i < |xs|
             && (forall j :: 0 <= j < i ==> !Fatal(fn, catches, xs[j]))
             && Fatal(fn, catches, xs[i])
    ensures var r := p.Catch(fn, catches).Run();
            && r.Aborted?
            && Raised(r.exc) == fn(Yields(p.Execution().events)[i])
            && r.delivered == Returns(MapSeq(Yields(p.Execution().events)[..i], fn))
  {
    var before, stage, site := p.Execution(), CatchStage(fn, catches), |p.ops|;
    var xs := Yields(before.events);
    AddOpComposes(p, PerItemOp(stage));
    PerItemFollowsItems(before, stage, site);
    OverItemsStopsAt(xs, stage, site, i);
    CatchItems(xs[..i], fn, catches, site) by {
      forall j | 0 <= j < i ensures !Fatal(fn, catches, xs[..i][j]) {
        assert xs[..i][j] == xs[j];
      }
    }
  }

  // ---------------------------------------------------------------------------
  // The whole run

  /** Apart from rate limiting, no operator pulls more source items than the
      stage before it; all but `take` pull all of them when they run to the
      end; and an operator calls only its own callbacks. */
  lemma ApplyScope(op: Op, t: Trace, site: nat)
    ensures var out := Apply(op, t, site);
            && Ticks(out.events, Processed) <= Ticks(t.events, Processed)
            && (!op.TakeOp? && out.end == Exhausted ==>
                  t.end == Exhausted && Ticks(out.events, Processed) == Ticks(t.events, Processed))
            && (forall s :: s != site && CallsAt(t.events, s) == [] ==> CallsAt(out.events, s) == [])
  {
    match op
    case PerItemOp(stage) =>
      PerItemScope(t, stage, site);
    case PacedOp =>
    case BatchOp(size) =>
      BatchFromPassesThrough(t, size, []);
    case DedupeOp(key, maxSize) =>
      DedupeConserves(t, key, maxSize, []);
    case TakeOp(n) =>
      var out := Take(t, n);
      TakePrefix(t, n);
      assert t.events == out.events + t.events[|out.events|..];
      Concatenation(out.events, t.events[|out.events|..]);
  }

  /** No operator at position `site` or later has been called yet. */
  lemma {:induction false} CallsOnlyBelow(p: Pipe, site: nat)
    requires site >= |p.ops|
    ensures CallsAt(p.Execution().events, site) == []
    decreases |p.ops|
  {
    if p.ops != [] {
      var q, op := Prior(p), p.ops[|p.ops| - 1];
      CallsOnlyBelow(q, site);
      AddOpComposes(q, op);
      ApplyScope(op, q.Execution(), |q.ops|);
    }
  }

  /** `processed` counts the source items actually pulled: never more than
      the source holds, and all of them when the run completes without a
      `take`. */
  lemma {:induction false} PulledItems(p: Pipe)
    ensures var t := p.Execution();
            && Ticks(t.events, Processed) <= |p.source|
            && ((forall i :: 0 <= i < |p.ops| ==> !p.ops[i].TakeOp?) && t.end == Exhausted ==>
                  Ticks(t.events, Processed) == |p.source|)
    decreases |p.ops|
  {
    if p.ops != [] {
      var q, op := Prior(p), p.ops[|p.ops| - 1];
      PulledItems(q);
      AddOpComposes(q, op);
      ApplyScope(op, q.Execution(), |q.ops|);
      assert forall i :: 0 <= i < |q.ops| ==> q.ops[i] == p.ops[i];
    }
  }

  /** A completed run reports every counter: `processed` at most the source's
      length, and exactly it when no `take` is registered; `emitted` the
      number of items the sink received, which are the last stage's items in
      order. */
  lemma RunReports(p: Pipe)
    ensures var t, r := p.Execution(), p.Run();
            && (r.Completed? ==>
                  && r.report.items == Yields(t.events)
                  && r.report.stats.emitted == |r.report.items|
                  && r.report.stats.processed <= |p.source|
                  && ((forall i :: 0 <= i < |p.ops| ==> !p.ops[i].TakeOp?) ==> r.report.stats.processed == |p.source|)
                  && r.report.stats.dropped == Ticks(t.events, Dropped)
                  && r.report.stats.batches == Ticks(t.events, Batches)
                  && r.report.stats.errors == Ticks(t.events, Errors))
            && (r.Aborted? ==> r.delivered == Yields(t.events) && t.end == Failed(r.exc))
  {
    PulledItems(p);
  }

  /** A pipe with no operators hands over its source as it is. */
  lemma RunBare(xs: seq<Value>)
    ensures Pipe(xs, []).Run() == Completed(Report(xs, RunStats(|xs|, |xs|, 0, 0, 0)))
  {
    var t := Source(xs);
    assert Ticks(t.events, Dropped) == 0 && Ticks(t.events, Batches) == 0 && Ticks(t.events, Errors) == 0;
  }

  /** Directly after the source, `take(n)` pulls `min(n + 1, N)` items: it
      pulls one item more than it yields whenever the source has more. */
  lemma TakeFromSource(xs: seq<Value>, n: int)
    ensures var r := Pipe(xs, []).Take(n).Run();
            && r.Completed?
            && r.report.items == xs[..Min(Room(n, 0), |xs|)]
            && r.report.stats.processed == Min(Room(n, 0) + 1, |xs|)
  {
    AddOpComposes(Pipe(xs, []), TakeOp(n));
    TakeAfterSource(xs, n, 0);
    TakePrefix(Source(xs), n);
  }
}
