# simplypipe in Dafny

A model of simplypipe's lazy pipeline engine (`simplypipe/core/pipe.py`). A `Pipe` is an
immutable value: a finite source sequence plus the operators registered on it, in order.
`run` wraps the source in a layer that counts `processed`, stacks the operators on it in
registration order, drains the last stage counting `emitted`, and hands every drained item
to the sink. The counters are `processed`, `emitted`, `dropped`, `batches` and `errors`.
Every operator may increment its own counter while items flow through it.

## How the model works

- **Traces model the laziness.** Each stage is a generator pulling from the stage before
  it, and evaluation is single-threaded. So the complete behaviour of a stage over a finite
  input is one `Trace`: the in-order events it causes, then how it ends.
  - An event is an item yielded, a counter incremented, or a user callback called. A `tap`
    callback and a `catch` error handler are callbacks; each call is tagged with its
    operator's position.
  - A stage ends `Exhausted` when its input ran out, or `Failed(exc)` when an exception
    escaped.
  - Each operator is a function from the trace of the stage before it to its own trace.
- **`take` cuts the upstream trace.** It stops at the pull of item `n + 1`, which makes "no
  upstream work after `take` stops" a fact about prefixes of traces.
- **Per-item stages share one transducer.** `map`, `flat_map`, `filter`, `tap`,
  `retry_map` and `catch` are the `Stage` datatype run through `Stages.PerItem`.
  `Stages.OverItems` is the same stage over a plain sequence of items. Every per-item
  operator is proved to agree with it.
- **Stateful operators have their own transducers.** `batch`, `dedupe` and `take` each have
  one, each compared with a sequence-level description of its output.
  - `batch` yields `Seqs.Chunks` of its input.
  - Unbounded `dedupe` yields `Seqs.Firsts`, the first item of every key.
  - Bounded `dedupe` yields `Deduplication.Distinct`, the same loop over plain items. Its
    output is also proved to be a subsequence of the input that covers every key, with the
    record never past the bound.
  - `take` yields a prefix of its input.
- **User callables are total Dafny functions.**
  - A callable that may raise returns an `Outcome`: `Returned(v)` or `Raised(exc)`.
  - The function given to `retry_map` also receives the attempt number. This is how the
    stateful "flaky" functions of the test suite are expressed.
  - `exceptions=(...)` is a predicate on exceptions. An exception is reduced to its class
    name. The default, `AnyException`, stands for Python's `Exception`: it holds for every
    exception except `KeyboardInterrupt`, `SystemExit` and `GeneratorExit`.
- **`run` returns a `RunResult`.** It is `Completed(Report(items, stats))`, or
  `Aborted(delivered, exc)` when an exception escapes, in which case no statistics are
  returned.
- **Values are untyped.** A value is an integer, a string or a list of values; `batch`
  emits lists.
- **Builders that can fail return a `Built`.** `rate_limit(rate, per)` computes
  `per / rate` when it is called (`simplypipe/core/pipe.py:67`), so it either gives
  `Built(pipe)` or `Refused(exc)`. The other builders cannot fail and return a `Pipe`.

Modules: `Values`, `RunStatsModel`, `Seqs` (definitions over plain sequences), `Traces`, `Stages`,
`Batching`, `Deduplication`, `Taking`, `Pipeline` (builder, `run`, one lemma per operator
added to any pipe) and `Examples` (the test suite's scenarios as lemmas about whole runs).

### Behaviour that follows from the code

The model does what `simplypipe/core/pipe.py` does, including the following.

- **`take(n)` pulls one item more than it yields.** Its docstring says "Emit at most `n`
  items then stop" (`simplypipe/core/pipe.py:124`), and it does emit at most `n`. But it
  fetches an item and only then checks its count (`simplypipe/core/pipe.py:128-130`).
  Straight after the source it therefore pulls `min(n + 1, N)` items, and `take(0)` still
  pulls one.
- **`emitted` can exceed `processed`.** `flat_map` can expand one item into several
  (`Examples.FlatMapTwice`: 3 processed, 6 emitted).
- **`batch` accepts any size.** A size below 1 never equals the buffer's length
  (`simplypipe/core/pipe.py:56`), so all items come out in a single group.
- **`dedupe` evicts first-in first-out.** Its docstring says "(LRU)"
  (`simplypipe/core/pipe.py:82`). But a repeated key is never moved to the back of the
  record, so the key evicted is the one recorded first (`Examples.DedupeFirstInFirstOut`).
- **`catch` calls `on_error` before it increments `errors`** (`simplypipe/core/pipe.py:149-150`).
- **`rate_limit(0)` fails when it is called.** Dividing `per` by a zero `rate` raises
  `ZeroDivisionError` before any run starts, so no pipe is built (`Examples.RateLimitZero`).
- **A negative `retries` makes no attempt.** The retry loop never runs, and `raise None`
  raises Python's `TypeError`. The model names this exception `RaiseNone`.

## Model

| member | source | states |
|---|---|---|
| Pipeline.Apply | simplypipe/core/pipe.py:23-152 | models one operator's generator over the stage before it; `rate_limit` passes everything through. Each operator's behaviour is stated by its step lemma below |
| Pipeline.Fold | simplypipe/core/pipe.py:164-166 | models stacking the operators in registration order, each at its own position; `Pipeline.FoldSnoc` and `Pipeline.AddOpComposes` state how it composes |
| Pipeline.Pipe.Execution | simplypipe/core/pipe.py:159-166 | models everything a run does: the counted source, then every operator in registration order; `Pipeline.RunReports` states what a run reports of it |
| Pipeline.Tally | simplypipe/core/pipe.py:154-172 | models the counters of a run: each operator's increments, plus `emitted` for each item drained from the last stage; `Pipeline.RunReports` states their values |
| Pipeline.Pipe.Map | simplypipe/core/pipe.py:23-27 | registers `map(fn)` as a per-item stage; `Pipeline.MapStep` states its behaviour |
| Pipeline.Pipe.FlatMap | simplypipe/core/pipe.py:29-33 | registers `flat_map(fn)` as a per-item stage; `Pipeline.FlatMapStep` states its behaviour |
| Pipeline.Pipe.Filter | simplypipe/core/pipe.py:35-42 | registers `filter(fn)` as a per-item stage; `Pipeline.FilterStep` states its behaviour |
| Pipeline.Pipe.Tap | simplypipe/core/pipe.py:44-49 | registers `tap` as a per-item stage whose callback calls are recorded; `Pipeline.TapStep` states its behaviour |
| Pipeline.Pipe.Batch | simplypipe/core/pipe.py:51-63 | registers `batch(size)`; `Pipeline.BatchStep` states its behaviour |
| Pipeline.Pipe.RateLimit | simplypipe/core/pipe.py:65-78 | `rate_limit(rate, per)` raises `ZeroDivisionError` and registers nothing exactly when `rate` is zero; otherwise it appends one operator to the pipe, keeping the source and the earlier operators |
| Pipeline.Pipe.Dedupe | simplypipe/core/pipe.py:80-95 | registers `dedupe(key, max_size)`; `Pipeline.DedupeStep` and `Pipeline.BoundedDedupeStep` state its behaviour |
| Pipeline.Pipe.RetryMap | simplypipe/core/pipe.py:97-121 | registers `retry_map(fn, retries, exceptions)` with the defaults 3 and `Exception`; `Pipeline.RetryStep` and `Pipeline.RetryAborts` state its behaviour |
| Pipeline.Pipe.Take | simplypipe/core/pipe.py:123-134 | registers `take(n)`; `Pipeline.TakeStep` states its behaviour |
| Pipeline.Pipe.Catch | simplypipe/core/pipe.py:136-152 | registers `catch(fn, on_error, exceptions)` with the default `Exception`; `Pipeline.CatchStep` and `Pipeline.CatchAborts` state its behaviour |
| Pipeline.AnyException | simplypipe/core/pipe.py:102 | models the default `exceptions=(Exception,)` of `retry_map` and `catch`: every exception but `KeyboardInterrupt`, `SystemExit` and `GeneratorExit` is handled |
| Pipeline.Pipe.AddOp | simplypipe/core/pipe.py:20-21 | the new pipe keeps the source and the old operator list as its prefix and appends exactly the one new operator |
| Pipeline.Prior | simplypipe/core/pipe.py:20-21 | every pipe with operators is some pipe with its last operator added, so induction over registration covers every pipe |
| Pipeline.FoldSnoc | simplypipe/core/pipe.py:164-166 | stacking the operators `ops + [op]` is stacking `ops` and then running `op` at the next position |
| Pipeline.AddOpComposes | simplypipe/core/pipe.py:20-21 | operators compose in registration order: a run of `p` with `op` added is `op` applied to the run of `p` |
| Pipeline.Pipe.Run | simplypipe/core/pipe.py:154-174 | a run completes exactly when no exception escapes any stage, and a completed run's `emitted` equals the number of items the sink received |
| Pipeline.RunReports | simplypipe/core/pipe.py:154-174 | a completed run hands the sink the last stage's items in order; `processed` is at most the source length and equals it without `take`; `dropped`, `batches` and `errors` are the stages' increments; an aborted run delivered the items yielded before the exception, which is the one that ended the last stage |
| Pipeline.PulledItems | simplypipe/core/pipe.py:159-166 | `processed` never exceeds the number of source items, and equals it for a completed run with no `take` registered |
| Pipeline.ApplyScope | simplypipe/core/pipe.py:23-152 | no operator pulls more source items than the stage before it; every operator but `take` pulls all of them when it completes; an operator calls only its own callbacks |
| Pipeline.CallsOnlyBelow | simplypipe/core/pipe.py:164-166 | no callback of an operator registered at or after a position has been called by the pipe before it |
| Pipeline.RunBare | simplypipe/core/pipe.py:159-171 | with no operators the sink receives the source in order, with `processed` and `emitted` both its length and every other counter 0 |
| Pipeline.MapStep | simplypipe/core/pipe.py:23-27 | `map(fn)` on any pipe yields `fn(x)` for every item in order, with the same ending, counters and callback calls |
| Pipeline.FlatMapStep | simplypipe/core/pipe.py:29-33 | `flat_map(fn)` on any pipe yields the in-order concatenation of the expansions, with everything else unchanged |
| Pipeline.FilterStep | simplypipe/core/pipe.py:35-42 | `filter(fn)` on any pipe yields exactly the items satisfying `fn` in order; `dropped` grows by the rejected ones, so output length plus the growth of `dropped` is the input length; nothing else changes |
| Pipeline.TapStep | simplypipe/core/pipe.py:44-49 | `tap` on any pipe yields its input unchanged and calls its callback once per item in order; no other callback, counter or ending changes |
| Pipeline.RateLimitStep | simplypipe/core/pipe.py:65-78 | `rate_limit(rate, per)` on any pipe is refused exactly when `rate` is zero, and otherwise leaves the whole run unchanged: only timing differs |
| Pipeline.BatchStep | simplypipe/core/pipe.py:51-63 | over a pipe that completes, `batch(size)` yields the groups as lists; the groups concatenate back to the input; for `size >= 1` each group is non-empty and at most `size` long, all but the last exactly `size`, and there are `ceil(N / size)` of them; for `size <= 0` everything is one group; `batches` grows by the number of groups; nothing else changes |
| Pipeline.DedupeStep | simplypipe/core/pipe.py:80-95 | unbounded `dedupe(key)` yields the first item of every key in first-seen order, never two items with the same key, every key that occurs; output length plus the growth of `dropped` is the input length |
| Pipeline.BoundedDedupeStep | simplypipe/core/pipe.py:84-95 | `dedupe(key, max_size)` yields what the bounded record lets through: a subsequence of its input that covers every key of the input; the record holds at most `max_size` keys at every point of the stream; items yielded plus the growth of `dropped` are the items pulled; every other counter and the ending pass through; a bound at least the number of items gives the unbounded operator |
| Pipeline.TakeStep | simplypipe/core/pipe.py:123-134 | `take(n)` on any pipe yields the first `min(n, N)` items; everything it does is a prefix of what the pipe does; it ends right at the pull of item `n + 1` when there is one and changes nothing otherwise; no counter grows past the pipe's |
| Pipeline.TakeFromSource | simplypipe/core/pipe.py:126-132 | straight after the source, `take(n)` hands over the first `min(n, N)` items and `processed` is `min(n + 1, N)` |
| Pipeline.RetryStep | simplypipe/core/pipe.py:107-121 | when every item eventually succeeds, `retry_map` yields one value per item in order: the value of its first successful attempt, whose number is the item's count of failures; `errors` grows by the total failures; every other counter and the ending are unchanged |
| Pipeline.RetryAborts | simplypipe/core/pipe.py:107-121 | the run aborts with the exception of the first item whose attempts do not succeed, after delivering the successful value of every item before it |
| Pipeline.CatchStep | simplypipe/core/pipe.py:144-150 | with no unhandled exception, `catch(fn)` yields the returned values in order, calls `on_error(x, e)` once for every failing item in order, and counts each such item once in `errors`; every item does exactly one of the two |
| Pipeline.CatchAborts | simplypipe/core/pipe.py:144-150 | the first exception outside `exceptions` ends the run, after delivering the returned values of the items before it |
| Stages.OnItem | simplypipe/core/pipe.py:23-150 | models what a per-item operator does for one item: the callback calls, yields and counter increments of its loop body, or the exception that escapes; `Stages.OnItemScope` and the `Stages.…Items` lemmas below state it |
| Stages.PerItem | simplypipe/core/pipe.py:23-150 | models a per-item operator's generator over the stage before it; `Stages.PerItemFollowsItems` and `Stages.PerItemCalls` state it |
| Stages.OverItems | simplypipe/core/pipe.py:23-150 | models a per-item operator over a plain sequence of items; `Stages.OverItemsStopsAt` states where an escaping exception ends it |
| Stages.Attempts | simplypipe/core/pipe.py:110-120 | models `retry_map`'s retry loop for one item, from a given attempt on; `Stages.AttemptsFrom` and `Stages.RetryItem` state it |
| Stages.RetryItem | simplypipe/core/pipe.py:108-120 | for one item: at most `retries + 1` attempts; each handled failure counted once in `errors`; it succeeds exactly when a returning attempt comes within the limit, yielding that one value; an unhandled exception escapes at once, uncounted; the last exception escapes when attempts run out; a negative `retries` raises `raise None`'s `TypeError` without calling anything |
| Stages.AttemptsFrom | simplypipe/core/pipe.py:110-120 | the retry loop from any attempt on makes handled failures, then yields the first success, raises the first unhandled exception, or re-raises the last exception when no attempt is left |
| Stages.PerItemFollowsItems | simplypipe/core/pipe.py:25-26 | a per-item stage over a trace yields what it yields over the trace's items; it fails exactly when some item fails and otherwise ends as its input; counters add up |
| Stages.PerItemCalls | simplypipe/core/pipe.py:44-49 | callback calls made while running a per-item stage are those made for the items plus those passing through from upstream |
| Stages.OverItemsStopsAt | simplypipe/core/pipe.py:107-121 | the first item for which an exception escapes ends the stage with that exception, after the output of the items before it |
| Stages.EachStopsAt | simplypipe/core/pipe.py:144-150 | the same stopping property for any per-item behaviour |
| Stages.MapItems | simplypipe/core/pipe.py:23-27 | over plain items, `map` yields `fn(x)` for each and does nothing else |
| Stages.FlatMapItems | simplypipe/core/pipe.py:29-33 | over plain items, `flat_map` yields the concatenation of the expansions and does nothing else |
| Stages.FilterItems | simplypipe/core/pipe.py:35-42 | over plain items, `filter` yields the satisfying items in order and counts each rejected one in `dropped` |
| Stages.TapItems | simplypipe/core/pipe.py:44-49 | over plain items, `tap` calls its callback with every item in order and yields the items unchanged |
| Stages.CatchItems | simplypipe/core/pipe.py:144-150 | over plain items with handled exceptions only, `catch` yields the returned values, calls the handler for the others, and counts them in `errors` |
| Stages.CatchItem | simplypipe/core/pipe.py:146-150 | for one item: a return yields the value; a handled exception calls the handler with the item and the exception and counts one error |
| Stages.RetryItems | simplypipe/core/pipe.py:107-121 | over plain items that all eventually succeed, `retry_map` yields one value per item and counts the total failures in `errors` |
| Stages.RetryOne | simplypipe/core/pipe.py:110-116 | one eventually successful item yields exactly one value, that of the attempt numbered by its failures |
| Stages.PerItemScope | simplypipe/core/pipe.py:23-150 | a per-item stage pulls no more than its input, all of it when it completes, and calls no other operator's callback |
| Stages.OnItemScope | simplypipe/core/pipe.py:23-150 | handling one item never pulls from upstream and calls only the stage's own callbacks |
| Batching.BatchFrom | simplypipe/core/pipe.py:52-62 | models `batch`'s generator with its buffer; `Batching.BatchFromChunks` states its output |
| Batching.BatchGroups | simplypipe/core/pipe.py:51-63 | over an input that completes, `batch(size)` yields the groups of `Chunks` as lists and `batches` grows by their number, `ceil(N / size)` for a positive size |
| Batching.BatchFromChunks | simplypipe/core/pipe.py:53-62 | from a buffer that is not full, the output is the groups of the buffered items followed by the input, each counted once |
| Batching.BatchFromPassesThrough | simplypipe/core/pipe.py:51-63 | `batch` ends as its input does and changes no counter but `batches` and no callback's calls |
| Seqs.ChunksConcat | simplypipe/core/pipe.py:51-63 | concatenating the groups gives back the input exactly |
| Seqs.ChunksShape | simplypipe/core/pipe.py:55-59 | every group is non-empty and at most `size` long, and all but the last are exactly `size` |
| Seqs.ChunksCount | simplypipe/core/pipe.py:55-62 | there are `ceil(N / size)` groups |
| Seqs.KeepPartition | simplypipe/core/pipe.py:37-41 | the kept and the rejected items together are the input as a multiset, so their counts add up to its length |
| Seqs.FirstsDistinct | simplypipe/core/pipe.py:86-92 | the first occurrences hold no key twice and every key of the input |
| Deduplication.Remember | simplypipe/core/pipe.py:88-91 | recording a new key keeps the newest entries: unbounded nothing is lost; bounded at most the earliest key is evicted; a record within the bound stays within it; the new key is kept when the bound is at least 1 |
| Deduplication.DedupeFrom | simplypipe/core/pipe.py:84-94 | models `dedupe`'s generator with its record of seen keys; `Deduplication.DedupeFollowsItems` and `Deduplication.DedupeConserves` state it |
| Deduplication.Distinct | simplypipe/core/pipe.py:86-94 | models `dedupe`'s loop over plain items from a given record: it yields no more items than it reads; the lemmas below state what it yields |
| Deduplication.Record | simplypipe/core/pipe.py:86-91 | models the record of seen keys after a sequence of items; `Deduplication.RecordBounded` and `Deduplication.DistinctSplit` state it |
| Deduplication.DistinctSplit | simplypipe/core/pipe.py:84-94 | running over `xs + ys` is running over `xs`, then over `ys` from the record `xs` leaves behind |
| Deduplication.DistinctSubsequence | simplypipe/core/pipe.py:86-92 | the items yielded are the input with some items left out, in their order |
| Deduplication.DistinctKeys | simplypipe/core/pipe.py:86-92 | every key of the input is yielded or was already recorded, and only keys of the input are yielded, bound or no bound |
| Deduplication.BoundedRecordAt | simplypipe/core/pipe.py:88-91 | with `max_size = m`, the record after any prefix of the input holds at most `m` keys, and the rest of the input is handled from it |
| Deduplication.BoundedRecord | simplypipe/core/pipe.py:88-91 | the same for every prefix at once |
| Deduplication.RecordBounded | simplypipe/core/pipe.py:88-91 | with `max_size = m` the record holds at most `m` keys after every item |
| Deduplication.DedupeConserves | simplypipe/core/pipe.py:86-94 | every item is yielded or counted in `dropped`, bound or no bound; everything else passes through |
| Deduplication.DedupeFollowsItems | simplypipe/core/pipe.py:84-95 | `dedupe` over a trace yields what `Distinct` yields over its items |
| Deduplication.DedupeFromFirsts | simplypipe/core/pipe.py:86-94 | unbounded, the items yielded extend the first occurrences of what was seen before to the first occurrences of everything |
| Deduplication.DedupeFirsts | simplypipe/core/pipe.py:84-95 | unbounded `dedupe` yields the first occurrence of every key in first-seen order, no key twice, and drops the rest |
| Deduplication.BoundNeverReached | simplypipe/core/pipe.py:90-91 | a bound the record never reaches evicts nothing, so the bounded operator is the unbounded one |
| Taking.TakeFrom | simplypipe/core/pipe.py:126-132 | models `take`'s generator with its count; `Taking.TakeFromPrefix` states it |
| Taking.TakeFromPrefix | simplypipe/core/pipe.py:126-132 | with room for `m` items, what happens is a prefix of upstream's trace yielding its first `min(m, N)` items, stopping exactly at the pull of item `m + 1` |
| Taking.TakePrefix | simplypipe/core/pipe.py:126-132 | `take(n)` yields the first `min(n, N)` items and no counter grows past upstream's |
| Taking.TakeAfterSource | simplypipe/core/pipe.py:126-132 | straight after the source, `take(n)` pulls `min(n + 1, N)` items |
| Traces.Source | simplypipe/core/pipe.py:159-162 | the counting layer yields the source in order, counts each item once in `processed`, and does nothing else |
| Traces.Concatenation | simplypipe/core/pipe.py:164-171 | the items, counter increments and callback calls of one stretch followed by another are those of the first followed by those of the second |
| Traces.PrefixTicks | simplypipe/core/pipe.py:128-130 | stopping early counts no more of anything than running on |
| Examples.MapDoubles | tests/test_pipe.py:6-9 | `[1, 2, 3]` mapped by `x * 2` hands `[2, 4, 6]` to the sink |
| Examples.FlatMapTwice | tests/test_pipe.py:12-15 | `flat_map(lambda x: [x, x])` doubles each item; 3 processed, 6 emitted |
| Examples.FlatMapEmptyExpansion | tests/test_pipe.py:18-21 | an empty expansion contributes nothing |
| Examples.FilterEvens | tests/test_pipe.py:24-27 | filtering evens from `[1, 2, 3, 4]` keeps `[2, 4]` and drops two |
| Examples.TapSeesEveryItem | tests/test_pipe.py:36-41 | `tap` sees 1, 2, 3 in order and passes them on |
| Examples.BatchRangeSeven | tests/test_pipe.py:44-47 | `range(7)` in threes gives `[[0, 1, 2], [3, 4, 5], [6]]` |
| Examples.BatchLargerThanSource | tests/test_pipe.py:62-65 | a size beyond the source gives one group |
| Examples.BatchSizeZero | simplypipe/core/pipe.py:54-62 | `batch(0)` over `[1, 2, 3]` never fills a group, so all three items come out in one group at the end, with one batch counted |
| Examples.DedupeFirstSeen | tests/test_pipe.py:80-83 | `[3, 1, 2, 1, 3]` deduplicates to `[3, 1, 2]` and drops two |
| Examples.DedupeByKey | tests/test_pipe.py:74-77 | items with equal keys are duplicates |
| Examples.DedupeBoundedEvicts | tests/test_pipe.py:86-90 | `[1, 2, 3, 1]` with `max_size=2` emits all four items |
| Examples.DedupeFirstInFirstOut | simplypipe/core/pipe.py:88-94 | `[1, 2, 1, 3, 1]` with `max_size=2` yields `[1, 2, 3, 1]`: the repeat of 1 does not refresh it |
| Examples.RateLimitPassesAll | tests/test_pipe.py:93-96 | `rate_limit(1_000_000)` over `[1, 2, 3]` is built and passes every item |
| Examples.RateLimitZero | simplypipe/core/pipe.py:67 | `rate_limit(0)` raises `ZeroDivisionError` when called, whatever the source |
| Examples.RetrySucceedsAfterRetries | tests/test_pipe.py:107-119 | a function failing twice then succeeding yields `10` and counts 2 errors |
| Examples.RetrySucceedsFirstTry | tests/test_pipe.py:99-104 | `[1, 2, 3]` through `retry_map(x * 10, retries=2)` yields `[10, 20, 30]` with no errors |
| Examples.RetryOverSource | simplypipe/core/pipe.py:107-121 | straight after the source, `retry_map` with only eventual successes completes with one value per item and `errors` the total failures |
| Examples.RetryRaisesAfterExhausted | tests/test_pipe.py:122-127 | three failed attempts with `retries=2` let the last `ValueError` escape |
| Examples.RetryOnlyCatchesGiven | tests/test_pipe.py:143-150 | an exception outside `exceptions` escapes at once |
| Examples.RetryNegative | simplypipe/core/pipe.py:110-120 | `retries=-1` makes no call and raises `raise None`'s `TypeError` |
| Examples.TakeThree | tests/test_pipe.py:153-156 | `take(3)` of `range(100)` yields `[0, 1, 2]` and pulls 4 items |
| Examples.TakeMoreThanSource | tests/test_pipe.py:159-162 | `take(10)` of two items yields both |
| Examples.TakeZero | tests/test_pipe.py:165-168 | `take(0)` yields nothing but pulls one item |
| Examples.CatchOverSource | simplypipe/core/pipe.py:144-150 | straight after the source, with handled exceptions only, `catch` completes with the returned values and `errors` the number of failures, and calls the handler for each failing item |
| Examples.CatchPassesResults | tests/test_pipe.py:171-178 | with no failure every result passes and the handler is never called |
| Examples.CatchRoutesFailures | tests/test_pipe.py:181-194 | `[1, 2, 3]` with a failure on 2 yields `[10, 30]` and hands item 2 to the handler |
| Examples.CatchCountsErrors | tests/test_pipe.py:197-202 | three failing items count three errors |
| Examples.CatchOnlyCatchesGiven | tests/test_pipe.py:205-214 | an exception outside `exceptions` escapes from `run` |
| Examples.FilterStats | tests/test_pipe.py:269-277 | `filter(x < 5)` on `range(10)`: 10 processed, 5 emitted, 5 dropped |
| Examples.FilterMapBatch | tests/test_pipe.py:217-227 | filter, map and batch chained give `[[0, 6], [12, 18], [24]]` |
| Examples.TapThenMap | tests/test_pipe.py:230-235 | `tap` before `map` sees the items before mapping, the sink after |
| Examples.CountsWithoutOperators | tests/test_pipe.py:259-266 | `range(10)` alone: 10 processed, 10 emitted |
| Examples.EmptySource | tests/test_pipe.py:314-319 | an empty source processes and emits nothing |

## Left out

- Wall-clock time: `duration`, `time.perf_counter`, every `time.sleep`, the pacing of
  `rate_limit` and `retry_map`'s backoff delay only affect timing. A registered
  `rate_limit` is therefore the identity on the run, and `backoff` is not a parameter.
- Pipeline.Pipe.RateLimit: `rate` and `per` are real numbers, so only a zero `rate` makes
  the builder fail. Python can also fail there with `OverflowError`, when an integer
  argument is too large for a float, and with `TypeError` for a non-number. A NaN or
  infinite argument does not exist in the model. Python's message for an integer
  `per` over an integer zero is "division by zero" rather than "float division by zero".
- Exceptions raised by the `map`, `flat_map` and `filter` callables, by `key`, by `tap`'s
  callback, by `on_error` or by the sink: these callables are total functions in the model.
- Side effects of user callables other than the sequence of arguments `tap` and `on_error`
  receive. The state of `retry_map`'s function is reduced to the attempt number within one
  item; the sink's argument sequence is the run's item list.
- Infinite and one-shot sources: sources are finite sequences. Running the same pipe twice
  therefore gives the same items and counters by construction, since `Pipeline.Pipe.Run` is
  a function of the pipe value; no separate lemma states it.
- Generator shutdown mechanics (`GeneratorExit`, `close`), and exceptions thrown into a
  suspended `yield`.
- Pipeline.BatchStep: states the groups only when the stage before `batch` completes. When an
  exception escapes upstream, the buffered partial group is never emitted; the model
  computes this, but no lemma describes it.
- Pipeline.RetryStep: describes the items only when every item eventually succeeds.
  Pipeline.RetryAborts covers the other case, but not the `errors` count reached before the
  exception, which a failed run does not report anyway.
- Deduplication.DedupeFollowsItems: keys are any `Value -> Value` function compared by
  equality; Python hashing, and the `str.lower` of the test suite, are not modelled
  separately.
- Unhashable keys: in Python, `dedupe` over list items without a `key` raises `TypeError`,
  because a list cannot be a dictionary key. The model compares lists by equality and
  deduplicates them instead.
- Value types: a `Value` is an integer, a string or a list. Floats, booleans, `None`,
  tuples, dictionaries and other objects are not modelled. So Python's equal keys across
  types, such as `1`, `1.0` and `True` counting as one key in `dedupe`, cannot be expressed.
- Exception classes: an exception is reduced to its class name, and `exceptions=(...)` is
  any predicate on names, so subclass matching is not modelled. `AnyException` excludes
  only `KeyboardInterrupt`, `SystemExit` and `GeneratorExit`; other classes that derive
  only from `BaseException`, such as `asyncio.CancelledError` or `BaseExceptionGroup`, are
  treated as `Exception`s.
- `simplypipe/__init__.py`, the `pipe(iterable)` factory, is not part of this model; `Pipe(xs, [])` plays its role.
