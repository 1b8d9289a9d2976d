/** The checkpoints of the repository's unit tests, as lemmas about whole
    runs.  Python's integers become `Int` values and every callable is a named
    function.  Each source list is passed as a parameter fixed by the lemma's
    precondition; the items of the dedupe checkpoints are any pairwise
    different values rather than particular numbers. */
module Examples {
  import opened Values
  import opened RunStatsModel
  import opened Seqs
  import opened Traces
  import opened Stages
  import opened Batching
  import opened Deduplication
  import opened Taking
  import opened Pipeline

  // ---------------------------------------------------------------------------
  // The callables of the tests

  /** `range(n)`. */
  function Range(n: nat): (r: seq<Value>)
    ensures |r| == n && forall i :: 0 <= i < n ==> r[i] == Int(i)
  {
    seq(n, i => Int(i))
  }

  function Times(k: int, v: Value): Value
  {
    if v.Int? then Int(v.i * k) else v
  }

  function Double(v: Value): Value { Times(2, v) }

  function Triple(v: Value): Value { Times(3, v) }

  function Tenfold(v: Value): Value { Times(10, v) }

  function PlusTen(v: Value): Value
  {
    if v.Int? then Int(v.i + 10) else v
  }

  function Twice(v: Value): seq<Value> { [v, v] }

  function SkipTwo(v: Value): seq<Value>
  {
    if v == Int(2) then [] else [v]
  }

  function IsEven(v: Value): bool { v.Int? && v.i % 2 == 0 }

  function BelowFive(v: Value): bool { v.Int? && v.i < 5 }

  function ValueError(message: string): Exc { Exc("ValueError", message) }

  function TypeError(message: string): Exc { Exc("TypeError", message) }

  predicate IsValueError(e: Exc) { e.kind == "ValueError" }

  /** The tests' `flaky`: fails the first two calls, then returns `x * 10`. */
  function Flaky(x: Value, attempt: nat): Outcome
  {
    if attempt < 2 then Raised(ValueError("not yet")) else Returned(Tenfold(x))
  }

  function TenfoldAtOnce(x: Value, attempt: nat): Outcome
  {
    Returned(Tenfold(x))
  }

  function AlwaysFails(x: Value, attempt: nat): Outcome
  {
    Raised(ValueError("always"))
  }

  function WrongType(x: Value, attempt: nat): Outcome
  {
    Raised(TypeError("wrong type"))
  }

  function FailOnTwo(x: Value): Outcome
  {
    if x == Int(2) then Raised(ValueError("bad")) else Returned(Tenfold(x))
  }

  function DoubleReturned(x: Value): Outcome
  {
    Returned(Double(x))
  }

  function Nope(x: Value): Outcome
  {
    Raised(ValueError("nope"))
  }

  function Wrong(x: Value): Outcome
  {
    Raised(TypeError("wrong"))
  }

  // ---------------------------------------------------------------------------
  // Small evaluation steps

  lemma ConcatThree(a: seq<Value>, b: seq<Value>, c: seq<Value>)
    ensures Concat([a, b, c]) == a + b + c
  {
    assert [a, b, c][1..] == [b, c];
    assert [b, c][1..] == [c];
    assert [c][1..] == [];
    assert Concat([c]) == c + Concat([]) == c;
    assert Concat([b, c]) == b + Concat([c]) == b + c;
  }

  lemma KeepCons(x: Value, xs: seq<Value>, p: Value -> bool)
    ensures Keep([x] + xs, p) == (if p(x) then [x] else []) + Keep(xs, p)
  {
    assert ([x] + xs)[1..] == xs;
  }

  /** Keeping from position `k` on is deciding on item `k`, then keeping from `k + 1` on. */
  lemma KeepTail(xs: seq<Value>, k: nat, p: Value -> bool)
    requires k < |xs|
    ensures Keep(xs[k..], p) == (if p(xs[k]) then [xs[k]] else []) + Keep(xs[k + 1..], p)
  {
    assert xs[k..][0] == xs[k];
    assert xs[k..][1..] == xs[k + 1..];
  }

  /** Keeping the items of a sequence that satisfy a predicate exactly before
      position `k` keeps the first `k`. */
  lemma {:induction false} KeepUpTo(xs: seq<Value>, p: Value -> bool, k: nat)
    requires k <= |xs|
    requires forall i :: 0 <= i < |xs| ==> (p(xs[i]) <==> i < k)
    ensures Keep(xs, p) == xs[..k]
    decreases |xs|
  {
    if xs != [] {
      assert [xs[0]] + xs[1..] == xs;
      KeepCons(xs[0], xs[1..], p);
      if k > 0 {
        KeepUpTo(xs[1..], p, k - 1);
        assert xs[..k] == [xs[0]] + xs[1..][..k - 1];
      } else {
        KeepUpTo(xs[1..], p, 0);
      }
    }
  }

  lemma {:induction false} ReturnsAppend(a: seq<Outcome>, b: seq<Outcome>)
    ensures Returns(a + b) == Returns(a) + Returns(b)
    decreases |a|
  {
    if a == [] {
      assert a + b == b;
    } else {
      var o := a[0];
      assert (a + b)[0] == o;
      assert (a + b)[1..] == a[1..] + b;
      ReturnsAppend(a[1..], b);
      assert Returns(a + b) == (if o.Returned? then [o.value] else []) + Returns(a[1..] + b);
    }
  }

  lemma {:induction false} RecoveriesAppend(a: seq<Value>, b: seq<Value>, fn: Value -> Outcome)
    ensures Recoveries(a + b, fn) == Recoveries(a, fn) + Recoveries(b, fn)
    decreases |a|
  {
    if a == [] {
      assert a + b == b;
    } else {
      var x := a[0];
      assert (a + b)[0] == x;
      assert (a + b)[1..] == a[1..] + b;
      RecoveriesAppend(a[1..], b, fn);
      assert Recoveries(a + b, fn) == (if fn(x).Raised? then [ErrorCall(x, fn(x).exc)] else []) + Recoveries(a[1..] + b, fn);
    }
  }

  /** What `catch(fn)` yields for one item. */
  function ReturnOf(fn: Value -> Outcome, x: Value): seq<Value>
  {
    if fn(x).Returned? then [fn(x).value] else []
  }

  /** The handler call `catch(fn)` makes for one item. */
  function RecoveryOf(fn: Value -> Outcome, x: Value): seq<Call>
  {
    if fn(x).Raised? then [ErrorCall(x, fn(x).exc)] else []
  }

  /** `catch(fn)` over one item. */
  lemma CatchOne(x: Value, fn: Value -> Outcome)
    ensures Returns(MapSeq([x], fn)) == ReturnOf(fn, x)
    ensures Recoveries([x], fn) == RecoveryOf(fn, x)
  {
    assert MapSeq([x], fn) == [fn(x)];
    assert [fn(x)][1..] == [] && [x][1..] == [];
  }

  /** `catch(fn)` over one item after others. */
  lemma CatchSnoc(xs: seq<Value>, x: Value, fn: Value -> Outcome)
    ensures Returns(MapSeq(xs + [x], fn)) == Returns(MapSeq(xs, fn)) + ReturnOf(fn, x)
    ensures Recoveries(xs + [x], fn) == Recoveries(xs, fn) + RecoveryOf(fn, x)
  {
    assert MapSeq(xs + [x], fn) == MapSeq(xs, fn) + MapSeq([x], fn);
    ReturnsAppend(MapSeq(xs, fn), MapSeq([x], fn));
    RecoveriesAppend(xs, [x], fn);
    CatchOne(x, fn);
  }

  /** `catch(fn)` over two items. */
  lemma CatchTwo(a: Value, b: Value, fn: Value -> Outcome)
    ensures Returns(MapSeq([a, b], fn)) == ReturnOf(fn, a) + ReturnOf(fn, b)
    ensures Recoveries([a, b], fn) == RecoveryOf(fn, a) + RecoveryOf(fn, b)
  {
    CatchOne(a, fn);
    CatchSnoc([a], b, fn);
    assert [a] + [b] == [a, b];
  }

  /** `catch(fn)` over three items. */
  lemma CatchThree(a: Value, b: Value, c: Value, fn: Value -> Outcome)
    ensures Returns(MapSeq([a, b, c], fn)) == ReturnOf(fn, a) + ReturnOf(fn, b) + ReturnOf(fn, c)
    ensures Recoveries([a, b, c], fn) == RecoveryOf(fn, a) + RecoveryOf(fn, b) + RecoveryOf(fn, c)
  {
    CatchTwo(a, b, fn);
    CatchSnoc([a, b], c, fn);
    assert [a, b] + [c] == [a, b, c];
  }

  lemma DistinctNew(x: Value, xs: seq<Value>, kf: Value -> Value, maxSize: Option<int>, seen: seq<Value>, seen': seq<Value>)
    requires kf(x) !in seen && seen' == Remember(seen, kf(x), maxSize)
    ensures Distinct([x] + xs, kf, maxSize, seen) == [x] + Distinct(xs, kf, maxSize, seen')
  {
    assert ([x] + xs)[1..] == xs;
  }

  lemma DistinctRepeat(x: Value, xs: seq<Value>, kf: Value -> Value, maxSize: Option<int>, seen: seq<Value>)
    requires kf(x) in seen
    ensures Distinct([x] + xs, kf, maxSize, seen) == Distinct(xs, kf, maxSize, seen)
  {
    assert ([x] + xs)[1..] == xs;
  }

  // ---------------------------------------------------------------------------
  // map, flat_map, filter, tap, rate_limit

  /** `pipe([1, 2, 3]).map(lambda x: x * 2)` hands `[2, 4, 6]` to the sink,
      with 3 items processed and 3 emitted. */
  lemma MapDoubles()
    ensures Pipe([Int(1), Int(2), Int(3)], []).Map(Double).Run()
         == Completed(Report([Int(2), Int(4), Int(6)], RunStats(3, 3, 0, 0, 0)))
  {
    var xs := [Int(1), Int(2), Int(3)];
    MapStep(Pipe(xs, []), Double);
  }

  /** `flat_map(lambda x: [x, x])` over `[1, 2, 3]` emits six items from three
      processed ones: `emitted` can exceed `processed`. */
  lemma FlatMapTwice(xs: seq<Value>)
    requires xs == [Int(1), Int(2), Int(3)]
    ensures Pipe(xs, []).FlatMap(Twice).Run()
         == Completed(Report([Int(1), Int(1), Int(2), Int(2), Int(3), Int(3)], RunStats(3, 6, 0, 0, 0)))
  {
    FlatMapStep(Pipe(xs, []), Twice);
    assert MapSeq(xs, Twice) == [[Int(1), Int(1)], [Int(2), Int(2)], [Int(3), Int(3)]];
    ConcatThree([Int(1), Int(1)], [Int(2), Int(2)], [Int(3), Int(3)]);
  }

  /** An empty expansion contributes nothing. */
  lemma FlatMapEmptyExpansion(xs: seq<Value>)
    requires xs == [Int(1), Int(2), Int(3)]
    ensures Pipe(xs, []).FlatMap(SkipTwo).Run()
         == Completed(Report([Int(1), Int(3)], RunStats(3, 2, 0, 0, 0)))
  {
    FlatMapStep(Pipe(xs, []), SkipTwo);
    assert MapSeq(xs, SkipTwo) == [[Int(1)], [], [Int(3)]];
    ConcatThree([Int(1)], [], [Int(3)]);
  }

  lemma EvensOfFour(xs: seq<Value>)
    requires xs == [Int(1), Int(2), Int(3), Int(4)]
    ensures Keep(xs, IsEven) == [Int(2), Int(4)]
  {
    KeepTail(xs, 3, IsEven);
    KeepTail(xs, 2, IsEven);
    KeepTail(xs, 1, IsEven);
    KeepTail(xs, 0, IsEven);
    assert xs[4..] == [] && xs[0..] == xs;
  }

  /** `filter(lambda x: x % 2 == 0)` over `[1, 2, 3, 4]` keeps `[2, 4]` and
      drops two. */
  lemma FilterEvens()
    ensures Pipe([Int(1), Int(2), Int(3), Int(4)], []).Filter(IsEven).Run()
         == Completed(Report([Int(2), Int(4)], RunStats(4, 2, 2, 0, 0)))
  {
    var xs := [Int(1), Int(2), Int(3), Int(4)];
    FilterOverSource(xs, IsEven);
    EvensOfFour(xs);
  }

  /** `pipe(range(10)).filter(lambda x: x < 5)`: 10 processed, 5 emitted,
      5 dropped. */
  lemma FilterStats(xs: seq<Value>)
    requires xs == Range(10)
    ensures Pipe(xs, []).Filter(BelowFive).Run() == Completed(Report(Range(5), RunStats(10, 5, 5, 0, 0)))
  {
    FilterOverSource(xs, BelowFive);
    KeepUpTo(xs, BelowFive, 5);
    assert xs[..5] == Range(5);
  }

  /** `tap(side.append)` over `[1, 2, 3]` calls the callback with 1, 2 and 3,
      in order, and passes the items on unchanged. */
  lemma TapSeesEveryItem()
    ensures var p := Pipe([Int(1), Int(2), Int(3)], []).Tap();
            && CallsAt(p.Execution().events, 0) == [TapCall(Int(1)), TapCall(Int(2)), TapCall(Int(3))]
            && p.Run() == Completed(Report([Int(1), Int(2), Int(3)], RunStats(3, 3, 0, 0, 0)))
  {
    var xs := [Int(1), Int(2), Int(3)];
    TapStep(Pipe(xs, []));
  }

  /** `tap(log.append).map(lambda x: x + 10)`: the log holds the items before
      the map, the sink receives them after it. */
  lemma TapThenMap(xs: seq<Value>)
    requires xs == [Int(1), Int(2), Int(3)]
    ensures var p := Pipe(xs, []).Tap().Map(PlusTen);
            && CallsAt(p.Execution().events, 0) == [TapCall(Int(1)), TapCall(Int(2)), TapCall(Int(3))]
            && p.Run() == Completed(Report([Int(11), Int(12), Int(13)], RunStats(3, 3, 0, 0, 0)))
  {
    TapStep(Pipe(xs, []));
    MapStep(Pipe(xs, []).Tap(), PlusTen);
  }

  /** `pipe([1, 2, 3]).rate_limit(1_000_000)` lets every item through. */
  lemma RateLimitPassesAll()
    ensures var r := Pipe([Int(1), Int(2), Int(3)], []).RateLimit(1000000.0);
            && r.Built?
            && r.pipe.Run() == Completed(Report([Int(1), Int(2), Int(3)], RunStats(3, 3, 0, 0, 0)))
  {
    RateLimitStep(Pipe([Int(1), Int(2), Int(3)], []), 1000000.0, 1.0);
  }

  /** `rate_limit(0)` raises `ZeroDivisionError` when it is called, so there is
      no pipe to run. */
  lemma RateLimitZero(xs: seq<Value>)
    ensures Pipe(xs, []).RateLimit(0.0) == Refused(ZeroDivision)
  {
  }

  // ---------------------------------------------------------------------------
  // batch

  lemma ChunksOfSeven(xs: seq<Value>)
    requires xs == Range(7)
    ensures Chunks(xs, 3) == [[Int(0), Int(1), Int(2)], [Int(3), Int(4), Int(5)], [Int(6)]]
  {
    assert xs[..3] == [Int(0), Int(1), Int(2)];
    assert xs[3..][..3] == [Int(3), Int(4), Int(5)];
    assert xs[3..][3..] == [Int(6)];
    assert Chunks([Int(6)], 3) == [[Int(6)]];
    assert Chunks(xs[3..], 3) == [[Int(3), Int(4), Int(5)]] + Chunks([Int(6)], 3);
    assert Chunks(xs, 3) == [[Int(0), Int(1), Int(2)]] + Chunks(xs[3..], 3);
  }

  /** `pipe(range(7)).batch(3)` yields `[[0, 1, 2], [3, 4, 5], [6]]` and counts
      3 batches. */
  lemma BatchRangeSeven(xs: seq<Value>)
    requires xs == Range(7)
    ensures Pipe(xs, []).Batch(3).Run()
         == Completed(Report([List([Int(0), Int(1), Int(2)]), List([Int(3), Int(4), Int(5)]), List([Int(6)])],
                             RunStats(7, 3, 0, 3, 0)))
  {
    BatchStep(Pipe(xs, []), 3);
    ChunksOfSeven(xs);
  }

  /** A batch larger than the source yields everything as one group. */
  lemma BatchLargerThanSource()
    ensures Pipe([Int(1), Int(2)], []).Batch(10).Run()
         == Completed(Report([List([Int(1), Int(2)])], RunStats(2, 1, 0, 1, 0)))
  {
    var xs := [Int(1), Int(2)];
    BatchStep(Pipe(xs, []), 10);
  }

  /** A size of zero never fills a group: all items come out as one. */
  lemma BatchSizeZero(xs: seq<Value>)
    requires xs == [Int(1), Int(2), Int(3)]
    ensures Pipe(xs, []).Batch(0).Run()
         == Completed(Report([List(xs)], RunStats(3, 1, 0, 1, 0)))
  {
    BatchStep(Pipe(xs, []), 0);
  }

  // ---------------------------------------------------------------------------
  // dedupe

  lemma FirstSeenTail(a: Value, b: Value, c: Value)
    requires a != b && b != c && a != c
    ensures Distinct([c, b, a], KeyFn(None), None, [a, b]) == [c]
  {
    DistinctRepeat(a, [], KeyFn(None), None, [a, b, c]);
    DistinctRepeat(b, [a], KeyFn(None), None, [a, b, c]);
    DistinctNew(c, [b, a], KeyFn(None), None, [a, b], [a, b, c]);
  }

  lemma FirstSeenItems(a: Value, b: Value, c: Value)
    requires a != b && b != c && a != c
    ensures Distinct([a, b, c, b, a], KeyFn(None), None, []) == [a, b, c]
  {
    FirstSeenTail(a, b, c);
    DistinctNew(b, [c, b, a], KeyFn(None), None, [a], [a, b]);
    DistinctNew(a, [b, c, b, a], KeyFn(None), None, [], [a]);
  }

  /** `pipe([3, 1, 2, 1, 3]).dedupe()` yields `[3, 1, 2]` and drops two. */
  lemma DedupeFirstSeen(a: Value, b: Value, c: Value)
    requires a != b && b != c && a != c
    ensures Pipe([a, b, c, b, a], []).Dedupe().Run() == Completed(Report([a, b, c], RunStats(5, 3, 2, 0, 0)))
  {
    var xs := [a, b, c, b, a];
    DedupeStep(Pipe(xs, []), None);
    FirstSeenItems(a, b, c);
  }

  /** `dedupe(key=str.lower)` over `["a", "A", "b"]`: items with the same key
      count as duplicates. */
  lemma DedupeByKey(a: Value, upper: Value, b: Value, key: Value -> Value)
    requires key(a) == key(upper) && key(a) != key(b)
    ensures Pipe([a, upper, b], []).Dedupe(Some(key)).Run()
         == Completed(Report([a, b], RunStats(3, 2, 1, 0, 0)))
  {
    var xs := [a, upper, b];
    DedupeStep(Pipe(xs, []), Some(key));
    DistinctNew(b, [], key, None, [key(a)], [key(a), key(b)]);
    DistinctRepeat(upper, [b], key, None, [key(a)]);
    DistinctNew(a, [upper, b], key, None, [], [key(a)]);
  }

  lemma EvictedTail(a: Value, b: Value, c: Value)
    requires a != b && b != c && a != c
    ensures Distinct([c, a], KeyFn(None), Some(2), [a, b]) == [c, a]
  {
    DistinctNew(a, [], KeyFn(None), Some(2), [b, c], [c, a]);
    DistinctNew(c, [a], KeyFn(None), Some(2), [a, b], [b, c]);
  }

  lemma EvictedMiddle(a: Value, b: Value, c: Value)
    requires a != b && b != c && a != c
    ensures Distinct([b, c, a], KeyFn(None), Some(2), [a]) == [b, c, a]
  {
    EvictedTail(a, b, c);
    DistinctNew(b, [c, a], KeyFn(None), Some(2), [a], [a, b]);
  }

  lemma EvictedItems(a: Value, b: Value, c: Value)
    requires a != b && b != c && a != c
    ensures Distinct([a, b, c, a], KeyFn(None), Some(2), []) == [a, b, c, a]
  {
    EvictedMiddle(a, b, c);
    DistinctNew(a, [b, c, a], KeyFn(None), Some(2), [], [a]);
  }

  /** `pipe([1, 2, 3, 1]).dedupe(max_size=2)`: 3 evicts 1, so 1 is yielded
      again. */
  lemma DedupeBoundedEvicts(a: Value, b: Value, c: Value)
    requires a != b && b != c && a != c
    ensures Pipe([a, b, c, a], []).Dedupe(None, Some(2)).Run()
         == Completed(Report([a, b, c, a], RunStats(4, 4, 0, 0, 0)))
  {
    var xs := [a, b, c, a];
    BoundedDedupeStep(Pipe(xs, []), None, 2);
    EvictedItems(a, b, c);
  }

  lemma FirstInFirstOutTail(a: Value, b: Value, c: Value)
    requires a != b && b != c && a != c
    ensures Distinct([a, c, a], KeyFn(None), Some(2), [a, b]) == [c, a]
  {
    DistinctNew(a, [], KeyFn(None), Some(2), [b, c], [c, a]);
    DistinctNew(c, [a], KeyFn(None), Some(2), [a, b], [b, c]);
    DistinctRepeat(a, [c, a], KeyFn(None), Some(2), [a, b]);
  }

  lemma FirstInFirstOutMiddle(a: Value, b: Value, c: Value)
    requires a != b && b != c && a != c
    ensures Distinct([b, a, c, a], KeyFn(None), Some(2), [a]) == [b, c, a]
  {
    FirstInFirstOutTail(a, b, c);
    DistinctNew(b, [a, c, a], KeyFn(None), Some(2), [a], [a, b]);
  }

  lemma FirstInFirstOutItems(a: Value, b: Value, c: Value)
    requires a != b && b != c && a != c
    ensures Distinct([a, b, a, c, a], KeyFn(None), Some(2), []) == [a, b, c, a]
  {
    FirstInFirstOutMiddle(a, b, c);
    DistinctNew(a, [b, a, c, a], KeyFn(None), Some(2), [], [a]);
  }

  /** Eviction is first-in first-out: over `[1, 2, 1, 3, 1]` with
      `max_size=2`, the repeated 1 is not refreshed, so 3 evicts it and the
      last 1 is yielded again; least-recently-used eviction would have
      evicted 2 and dropped the last 1. */
  lemma DedupeFirstInFirstOut(a: Value, b: Value, c: Value)
    requires a != b && b != c && a != c
    ensures Pipe([a, b, a, c, a], []).Dedupe(None, Some(2)).Run()
         == Completed(Report([a, b, c, a], RunStats(5, 4, 1, 0, 0)))
  {
    var xs := [a, b, a, c, a];
    BoundedDedupeStep(Pipe(xs, []), None, 2);
    FirstInFirstOutItems(a, b, c);
  }

  // ---------------------------------------------------------------------------
  // retry_map

  lemma FlakyAttempts(x: Value)
    ensures Retried(Flaky, AnyException, 3, x) == Trace([Tick(Errors), Tick(Errors), Yield(Tenfold(x))], Exhausted)
  {
    var e := ValueError("not yet");
    assert Attempts(Flaky, AnyException, x, 3, 2, Some(e)) == Trace([Yield(Tenfold(x))], Exhausted);
    assert Attempts(Flaky, AnyException, x, 3, 1, Some(e)) == Trace([Tick(Errors), Yield(Tenfold(x))], Exhausted);
  }

  lemma FlakyTwoFailures(x: Value)
    ensures Failures(Flaky, AnyException, 3, x) == 2
  {
    FlakyAttempts(x);
    RetryItem(Flaky, AnyException, 3, x);
  }

  /** A call that succeeds on its first attempt is made once, with nothing
      counted in `errors`. */
  lemma TenfoldAttempts(x: Value)
    ensures Retried(TenfoldAtOnce, AnyException, 2, x) == Trace([Yield(Tenfold(x))], Exhausted)
    ensures Failures(TenfoldAtOnce, AnyException, 2, x) == 0
  {
    assert Retried(TenfoldAtOnce, AnyException, 2, x) == Trace([Yield(Tenfold(x))], Exhausted);
    OneEvent(Yield(Tenfold(x)));
  }

  /** `retry_map(lambda x: x * 10, retries=2)` over `[1, 2, 3]`: every first
      attempt succeeds, so the run yields `[10, 20, 30]` with no `errors`. */
  lemma RetrySucceedsFirstTry()
    ensures Pipe([Int(1), Int(2), Int(3)], []).RetryMap(TenfoldAtOnce, 2).Run()
         == Completed(Report([Int(10), Int(20), Int(30)], RunStats(3, 3, 0, 0, 0)))
  {
    var xs := [Int(1), Int(2), Int(3)];
    TenfoldAttempts(Int(1));
    TenfoldAttempts(Int(2));
    TenfoldAttempts(Int(3));
    assert TotalFailures(TenfoldAtOnce, AnyException, 2, xs[2..]) == 0;
    assert TotalFailures(TenfoldAtOnce, AnyException, 2, xs[1..]) == 0;
    RetryOverSource(xs, TenfoldAtOnce, 2);
    var r := Pipe(xs, []).RetryMap(TenfoldAtOnce, 2).Run();
    assert r.report.items == [Int(10), Int(20), Int(30)] by {
      forall i | 0 <= i < 3 ensures r.report.items[i] == Tenfold(xs[i]) {
        assert TenfoldAtOnce(xs[i], 0) == Returned(r.report.items[i]);
      }
    }
  }

  /** `retry_map(flaky, retries=3)` over `[1]`: two failures, each counted in
      `errors`, then the third call's `10` is yielded. */
  lemma RetrySucceedsAfterRetries()
    ensures Pipe([Int(1)], []).RetryMap(Flaky).Run() == Completed(Report([Int(10)], RunStats(1, 1, 0, 0, 2)))
  {
    var xs := [Int(1)];
    FlakyRun(Int(1), xs);
  }

  lemma FlakyTotal(x: Value, xs: seq<Value>)
    requires xs == [x]
    ensures Retried(Flaky, AnyException, 3, xs[0]).end == Exhausted
    ensures TotalFailures(Flaky, AnyException, 3, xs) == 2
  {
    FlakyAttempts(x);
    FlakyTwoFailures(x);
    assert xs[1..] == [];
  }

  /** The same run for any single item. */
  lemma FlakyRun(x: Value, xs: seq<Value>)
    requires xs == [x]
    ensures Pipe(xs, []).RetryMap(Flaky).Run() == Completed(Report([Tenfold(x)], RunStats(1, 1, 0, 0, 2)))
  {
    FlakyTotal(x, xs);
    FlakyTwoFailures(x);
    RetryOverSource(xs, Flaky, 3);
    var r := Pipe(xs, []).RetryMap(Flaky).Run();
    assert Flaky(x, 2) == Returned(r.report.items[0]);
    assert r.report.items == [Tenfold(x)];
  }

  /** `retry_map(fn, retries)` straight after the source, when every item
      eventually succeeds. */
  lemma RetryOverSource(xs: seq<Value>, fn: (Value, nat) -> Outcome, retries: int)
    requires forall i :: 0 <= i < |xs| ==> Retried(fn, AnyException, retries, xs[i]).end == Exhausted
    ensures var r := Pipe(xs, []).RetryMap(fn, retries).Run();
            && r.Completed?
            && |r.report.items| == |xs|
            && (forall i :: 0 <= i < |xs| ==> fn(xs[i], Failures(fn, AnyException, retries, xs[i])) == Returned(r.report.items[i]))
            && r.report.stats == RunStats(|xs|, |xs|, 0, 0, TotalFailures(fn, AnyException, retries, xs))
  {
    assert Pipe(xs, []).Execution() == Source(xs);
    RetryStep(Pipe(xs, []), fn, retries, AnyException);
  }

  /** `retry_map(always_fail, retries=2)`: after three failed attempts the
      last `ValueError("always")` escapes from `run`. */
  lemma RetryRaisesAfterExhausted()
    ensures Pipe([Int(1)], []).RetryMap(AlwaysFails, 2).Run() == Aborted([], ValueError("always"))
  {
    var xs := [Int(1)];
    RetryItem(AlwaysFails, AnyException, 2, Int(1));
    RetryAborts(Pipe(xs, []), AlwaysFails, 2, AnyException, 0);
  }

  /** `retry_map(raises_type_error, exceptions=(ValueError,))`: the
      `TypeError` is not retried and escapes at once. */
  lemma RetryOnlyCatchesGiven()
    ensures Pipe([Int(1)], []).RetryMap(WrongType, 2, IsValueError).Run() == Aborted([], TypeError("wrong type"))
  {
    var xs := [Int(1)];
    RetryItem(WrongType, IsValueError, 2, Int(1));
    RetryAborts(Pipe(xs, []), WrongType, 2, IsValueError, 0);
  }

  /** A negative `retries` makes no attempt; `raise None` escapes as a
      `TypeError`. */
  lemma RetryNegative()
    ensures Pipe([Int(1)], []).RetryMap(Flaky, -1).Run() == Aborted([], RaiseNone)
  {
    var xs := [Int(1)];
    RetryItem(Flaky, AnyException, -1, Int(1));
    RetryAborts(Pipe(xs, []), Flaky, -1, AnyException, 0);
  }

  // ---------------------------------------------------------------------------
  // take

  /** `pipe(range(100)).take(3)` yields `[0, 1, 2]` but pulls a fourth item
      from the source before it stops. */
  lemma TakeThree(xs: seq<Value>)
    requires xs == Range(100)
    ensures Pipe(xs, []).Take(3).Run() == Completed(Report([Int(0), Int(1), Int(2)], RunStats(4, 3, 0, 0, 0)))
  {
    var p := Pipe(xs, []).Take(3);
    TakeFromSource(xs, 3);
    RunReports(p);
    TakeStep(Pipe(xs, []), 3);
    assert xs[..3] == [Int(0), Int(1), Int(2)];
  }

  /** `take(10)` over `[1, 2]` yields both and pulls both. */
  lemma TakeMoreThanSource()
    ensures Pipe([Int(1), Int(2)], []).Take(10).Run()
         == Completed(Report([Int(1), Int(2)], RunStats(2, 2, 0, 0, 0)))
  {
    var xs := [Int(1), Int(2)];
    TakeStep(Pipe(xs, []), 10);
  }

  /** `take(0)` over `[1, 2, 3]` yields nothing, yet pulls one item. */
  lemma TakeZero(xs: seq<Value>)
    requires xs == [Int(1), Int(2), Int(3)]
    ensures Pipe(xs, []).Take(0).Run() == Completed(Report([], RunStats(1, 0, 0, 0, 0)))
  {
    var p := Pipe(xs, []).Take(0);
    TakeFromSource(xs, 0);
    RunReports(p);
    TakeStep(Pipe(xs, []), 0);
  }

  // ---------------------------------------------------------------------------
  // catch

  /** `catch(fn)` straight after the source, when every exception is handled. */
  lemma CatchOverSource(xs: seq<Value>, fn: Value -> Outcome)
    requires forall i :: 0 <= i < |xs| ==> !Fatal(fn, AnyException, xs[i])
    ensures var p := Pipe(xs, []).Catch(fn);
            && CallsAt(p.Execution().events, 0) == Recoveries(xs, fn)
            && p.Run() == Completed(Report(Returns(MapSeq(xs, fn)),
                                           RunStats(|xs|, |Returns(MapSeq(xs, fn))|, 0, 0, |Recoveries(xs, fn)|)))
  {
    assert Pipe(xs, []).Execution() == Source(xs);
    CatchStep(Pipe(xs, []), fn, AnyException);
  }

  /** `catch(fn)` over three items, item by item. */
  lemma CatchOverThree(xs: seq<Value>, fn: Value -> Outcome)
    requires |xs| == 3
    ensures Returns(MapSeq(xs, fn)) == ReturnOf(fn, xs[0]) + ReturnOf(fn, xs[1]) + ReturnOf(fn, xs[2])
    ensures Recoveries(xs, fn) == RecoveryOf(fn, xs[0]) + RecoveryOf(fn, xs[1]) + RecoveryOf(fn, xs[2])
  {
    assert xs == [xs[0], xs[1], xs[2]];
    CatchThree(xs[0], xs[1], xs[2], fn);
  }

  lemma DoubledThree(xs: seq<Value>)
    requires xs == [Int(1), Int(2), Int(3)]
    ensures Returns(MapSeq(xs, DoubleReturned)) == [Int(2), Int(4), Int(6)]
    ensures Recoveries(xs, DoubleReturned) == []
  {
    CatchOverThree(xs, DoubleReturned);
  }

  /** `catch(lambda x: x * 2, on_error=...)` with no failure yields every
      result and never calls the handler. */
  lemma CatchPassesResults()
    ensures var p := Pipe([Int(1), Int(2), Int(3)], []).Catch(DoubleReturned);
            && CallsAt(p.Execution().events, 0) == []
            && p.Run() == Completed(Report([Int(2), Int(4), Int(6)], RunStats(3, 3, 0, 0, 0)))
  {
    var xs := [Int(1), Int(2), Int(3)];
    CatchOverSource(xs, DoubleReturned);
    DoubledThree(xs);
  }

  lemma FailOnTwoThree(xs: seq<Value>)
    requires xs == [Int(1), Int(2), Int(3)]
    ensures Returns(MapSeq(xs, FailOnTwo)) == [Int(10), Int(30)]
    ensures Recoveries(xs, FailOnTwo) == [ErrorCall(Int(2), ValueError("bad"))]
  {
    CatchOverThree(xs, FailOnTwo);
  }

  /** `catch(fail_on_2, on_error=...)` over `[1, 2, 3]` yields `[10, 30]`,
      hands item 2 and its exception to the handler and counts one error. */
  lemma CatchRoutesFailures()
    ensures var p := Pipe([Int(1), Int(2), Int(3)], []).Catch(FailOnTwo);
            && CallsAt(p.Execution().events, 0) == [ErrorCall(Int(2), ValueError("bad"))]
            && p.Run() == Completed(Report([Int(10), Int(30)], RunStats(3, 2, 0, 0, 1)))
  {
    var xs := [Int(1), Int(2), Int(3)];
    CatchOverSource(xs, FailOnTwo);
    FailOnTwoThree(xs);
  }

  lemma NopeThree(xs: seq<Value>)
    requires xs == [Int(1), Int(2), Int(3)]
    ensures Returns(MapSeq(xs, Nope)) == []
    ensures |Recoveries(xs, Nope)| == 3
  {
    CatchOverThree(xs, Nope);
  }

  /** Every failing item counts once in `errors`. */
  lemma CatchCountsErrors()
    ensures Pipe([Int(1), Int(2), Int(3)], []).Catch(Nope).Run()
         == Completed(Report([], RunStats(3, 0, 0, 0, 3)))
  {
    var xs := [Int(1), Int(2), Int(3)];
    CatchOverSource(xs, Nope);
    NopeThree(xs);
  }

  /** An exception outside `exceptions` escapes from `run`. */
  lemma CatchOnlyCatchesGiven()
    ensures Pipe([Int(1)], []).Catch(Wrong, IsValueError).Run() == Aborted([], TypeError("wrong"))
  {
    var xs := [Int(1)];
    CatchAborts(Pipe(xs, []), Wrong, IsValueError, 0);
    assert xs[..0] == [];
  }

  // ---------------------------------------------------------------------------
  // Chains and counters

  lemma RangeTen(xs: seq<Value>)
    requires xs == Range(10)
    ensures xs == [Int(0), Int(1), Int(2), Int(3), Int(4)] + [Int(5), Int(6), Int(7), Int(8), Int(9)]
  {
  }

  lemma EvensLow(xs: seq<Value>)
    requires xs == [Int(0), Int(1), Int(2), Int(3), Int(4)]
    ensures Keep(xs, IsEven) == [Int(0), Int(2), Int(4)]
  {
    EvensOfFour([Int(1), Int(2), Int(3), Int(4)]);
    KeepCons(Int(0), [Int(1), Int(2), Int(3), Int(4)], IsEven);
  }

  lemma EvensSixToNine(xs: seq<Value>)
    requires xs == [Int(6), Int(7), Int(8), Int(9)]
    ensures Keep(xs, IsEven) == [Int(6), Int(8)]
  {
    KeepCons(Int(9), [], IsEven);
    KeepCons(Int(8), [Int(9)], IsEven);
    KeepCons(Int(7), [Int(8), Int(9)], IsEven);
    KeepCons(Int(6), [Int(7), Int(8), Int(9)], IsEven);
  }

  lemma EvensHigh(xs: seq<Value>)
    requires xs == [Int(5), Int(6), Int(7), Int(8), Int(9)]
    ensures Keep(xs, IsEven) == [Int(6), Int(8)]
  {
    EvensSixToNine([Int(6), Int(7), Int(8), Int(9)]);
    KeepCons(Int(5), [Int(6), Int(7), Int(8), Int(9)], IsEven);
  }

  lemma EvensOfTen(xs: seq<Value>)
    requires xs == Range(10)
    ensures Keep(xs, IsEven) == [Int(0), Int(2), Int(4), Int(6), Int(8)]
  {
    var lo, hi := [Int(0), Int(1), Int(2), Int(3), Int(4)], [Int(5), Int(6), Int(7), Int(8), Int(9)];
    RangeTen(xs);
    KeepAppend(lo, hi, IsEven);
    EvensLow(lo);
    EvensHigh(hi);
  }

  lemma TripledEvens(ys: seq<Value>)
    requires ys == [Int(0), Int(2), Int(4), Int(6), Int(8)]
    ensures MapSeq(ys, Triple) == [Int(0), Int(6), Int(12), Int(18), Int(24)]
  {
    var zs := MapSeq(ys, Triple);
    assert zs[0] == Int(0) && zs[1] == Int(6) && zs[2] == Int(12) && zs[3] == Int(18) && zs[4] == Int(24);
  }

  lemma {:induction false} KeepAppend(a: seq<Value>, b: seq<Value>, p: Value -> bool)
    ensures Keep(a + b, p) == Keep(a, p) + Keep(b, p)
    decreases |a|
  {
    if a != [] {
      KeepAppend(a[1..], b, p);
      assert (a + b)[1..] == a[1..] + b;
      assert (a + b)[0] == a[0];
    } else {
      assert a + b == b;
    }
  }

  lemma ChunksOfFive(ys: seq<Value>)
    requires ys == [Int(0), Int(6), Int(12), Int(18), Int(24)]
    ensures Chunks(ys, 2) == [[Int(0), Int(6)], [Int(12), Int(18)], [Int(24)]]
  {
    assert ys[..2] == [Int(0), Int(6)] && ys[2..][..2] == [Int(12), Int(18)] && ys[2..][2..] == [Int(24)];
    assert Chunks([Int(24)], 2) == [[Int(24)]];
    assert Chunks(ys[2..], 2) == [[Int(12), Int(18)]] + Chunks([Int(24)], 2);
    assert Chunks(ys, 2) == [[Int(0), Int(6)]] + Chunks(ys[2..], 2);
  }

  /** `filter(fn)` straight after the source. */
  lemma FilterOverSource(xs: seq<Value>, fn: Value -> bool)
    ensures var t := Pipe(xs, []).Filter(fn).Execution();
            && Yields(t.events) == Keep(xs, fn)
            && t.end == Exhausted
            && Ticks(t.events, Processed) == |xs|
            && Ticks(t.events, Dropped) == |xs| - |Keep(xs, fn)|
            && Ticks(t.events, Batches) == 0
            && Ticks(t.events, Errors) == 0
  {
    assert Pipe(xs, []).Execution() == Source(xs);
    FilterStep(Pipe(xs, []), fn);
  }

  /** The first stage of the chain below. */
  lemma FilterRangeTen(xs: seq<Value>)
    requires xs == Range(10)
    ensures var t := Pipe(xs, []).Filter(IsEven).Execution();
            && Yields(t.events) == [Int(0), Int(2), Int(4), Int(6), Int(8)]
            && t.end == Exhausted
            && Ticks(t.events, Processed) == 10
            && Ticks(t.events, Dropped) == 5
            && Ticks(t.events, Batches) == 0
            && Ticks(t.events, Errors) == 0
  {
    FilterOverSource(xs, IsEven);
    EvensOfTen(xs);
  }

  /** The stage before `batch(2)` in the chain below. */
  lemma FilterThenMap(xs: seq<Value>)
    requires xs == Range(10)
    ensures var t := Pipe(xs, []).Filter(IsEven).Map(Triple).Execution();
            && Yields(t.events) == [Int(0), Int(6), Int(12), Int(18), Int(24)]
            && t.end == Exhausted
            && Ticks(t.events, Processed) == 10
            && Ticks(t.events, Dropped) == 5
            && Ticks(t.events, Batches) == 0
            && Ticks(t.events, Errors) == 0
  {
    var p1 := Pipe(xs, []).Filter(IsEven);
    FilterRangeTen(xs);
    MapStep(p1, Triple);
    TripledEvens(Yields(p1.Execution().events));
  }

  /** `pipe(range(10)).filter(even).map(lambda x: x * 3).batch(2)` yields
      `[[0, 6], [12, 18], [24]]`. */
  lemma FilterMapBatch(xs: seq<Value>)
    requires xs == Range(10)
    ensures Pipe(xs, []).Filter(IsEven).Map(Triple).Batch(2).Run()
         == Completed(Report([List([Int(0), Int(6)]), List([Int(12), Int(18)]), List([Int(24)])],
                             RunStats(10, 3, 5, 3, 0)))
  {
    var p2 := Pipe(xs, []).Filter(IsEven).Map(Triple);
    FilterThenMap(xs);
    BatchStep(p2, 2);
    ChunksOfFive([Int(0), Int(6), Int(12), Int(18), Int(24)]);
  }

  /** `pipe(range(10)).run()` processes and emits 10 items. */
  lemma CountsWithoutOperators()
    ensures Pipe(Range(10), []).Run() == Completed(Report(Range(10), RunStats(10, 10, 0, 0, 0)))
  {
    var xs := Range(10);
    RunBare(xs);
  }

  /** An empty source: nothing processed, nothing emitted. */
  lemma EmptySource()
    ensures Pipe([], []).Map(Double).Run() == Completed(Report([], RunStats(0, 0, 0, 0, 0)))
  {
    MapStep(Pipe([], []), Double);
  }
}
