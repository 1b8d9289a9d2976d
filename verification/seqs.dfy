/** Reference definitions over plain finite sequences.  Each operator of the
    pipeline is proved to agree with one of these on the items it receives. */
module Seqs {

  /** `f` applied to every element, in order. */
  function MapSeq<A, B>(xs: seq<A>, f: A -> B): (r: seq<B>)
    ensures |r| == |xs|
    ensures forall i :: 0 <= i < |xs| ==> r[i] == f(xs[i])
  {
    if xs == [] then [] else [f(xs[0])] + MapSeq(xs[1..], f)
  }

  /** The in-order concatenation of a sequence of sequences. */
  function Concat<A>(xss: seq<seq<A>>): seq<A>
  {
    if xss == [] then [] else xss[0] + Concat(xss[1..])
  }

  /** The elements satisfying `p`, in their original order. */
  function Keep<A>(xs: seq<A>, p: A -> bool): (r: seq<A>)
    ensures |r| <= |xs|
    ensures forall i :: 0 <= i < |r| ==> p(r[i]) && r[i] in xs
    ensures forall i :: 0 <= i < |xs| && p(xs[i]) ==> xs[i] in r
  {
    if xs == [] then []
    else (if p(xs[0]) then [xs[0]] else []) + Keep(xs[1..], p)
  }

  /** The negation of a predicate. */
  function Not<A>(p: A -> bool): A -> bool
  {
    x => !p(x)
  }

  /** The groups of `size` consecutive elements, the last one possibly shorter.
      A non-positive size never completes a group, so all elements form one. */
  function Chunks<A>(xs: seq<A>, size: int): seq<seq<A>>
    decreases |xs|
  {
    if xs == [] then []
    else if size <= 0 || |xs| <= size then [xs]
    else [xs[..size]] + Chunks(xs[size..], size)
  }

  /** `a` is `b` with some elements left out, the others in their order. */
  predicate Subsequence<A(==)>(a: seq<A>, b: seq<A>)
    decreases |b|
  {
    if a == [] then true
    else if b == [] then false
    else (a[0] == b[0] && Subsequence(a[1..], b[1..])) || Subsequence(a, b[1..])
  }

  /** The set of keys of the elements of `xs`. */
  function Keys<A, K>(xs: seq<A>, key: A -> K): set<K>
  {
    set i | 0 <= i < |xs| :: key(xs[i])
  }

  /** The first occurrence of every key, in first-seen order: appending an
      element to the input appends it to the output exactly when its key is new. */
  function Firsts<A, K(==)>(xs: seq<A>, key: A -> K): seq<A>
    decreases |xs|
  {
    if xs == [] then []
    else
      var init := xs[..|xs| - 1];
      Firsts(init, key) + (if key(xs[|xs| - 1]) in Keys(init, key) then [] else [xs[|xs| - 1]])
  }

  /** Keeping and rejecting split the input: every element lands on exactly one side. */
  lemma {:induction false} KeepPartition<A>(xs: seq<A>, p: A -> bool)
    ensures multiset(Keep(xs, p)) + multiset(Keep(xs, Not(p))) == multiset(xs)
    ensures |Keep(xs, p)| + |Keep(xs, Not(p))| == |xs|
  {
    if xs != [] {
      KeepPartition(xs[1..], p);
      assert xs == [xs[0]] + xs[1..];
    }
  }

  lemma {:induction false} ConcatAppend<A>(a: seq<seq<A>>, b: seq<seq<A>>)
    ensures Concat(a + b) == Concat(a) + Concat(b)
  {
    if a == [] {
      assert a + b == b;
    } else {
      assert (a + b)[1..] == a[1..] + b;
      ConcatAppend(a[1..], b);
    }
  }

  /** Concatenating the groups gives back the input exactly. */
  lemma {:induction false} ChunksConcat<A>(xs: seq<A>, size: int)
    ensures Concat(Chunks(xs, size)) == xs
    decreases |xs|
  {
    if xs == [] {
    } else if size <= 0 || |xs| <= size {
      assert Concat([xs]) == xs + Concat([]);
    } else {
      ChunksConcat(xs[size..], size);
      assert xs == xs[..size] + xs[size..];
    }
  }

  /** Every group is non-empty and no longer than `size`; every group except the
      last has exactly `size` elements. */
  lemma {:induction false} ChunksShape<A>(xs: seq<A>, size: int)
    requires size >= 1
    ensures forall i :: 0 <= i < |Chunks(xs, size)| ==> 0 < |Chunks(xs, size)[i]| <= size
    ensures forall i :: 0 <= i < |Chunks(xs, size)| - 1 ==> |Chunks(xs, size)[i]| == size
    decreases |xs|
  {
    if xs != [] && |xs| > size {
      ChunksShape(xs[size..], size);
      var ch := Chunks(xs, size);
      assert ch == [xs[..size]] + Chunks(xs[size..], size);
      forall i | 0 < i < |ch|
        ensures ch[i] == Chunks(xs[size..], size)[i - 1]
      {
      }
    }
  }

  /** There are `ceil(N / size)` groups for `N` elements. */
  lemma {:induction false} ChunksCount<A>(xs: seq<A>, size: int)
    requires size >= 1
    ensures |Chunks(xs, size)| == (|xs| + size - 1) / size
    decreases |xs|
  {
    if xs == [] {
    } else if |xs| <= size {
      assert (|xs| + size - 1) / size == 1 by {
        assert size <= |xs| + size - 1 < 2 * size;
      }
    } else {
      ChunksCount(xs[size..], size);
      assert (|xs| + size - 1) / size == (|xs| - size + size - 1) / size + 1 by {
        var m := |xs| - size + size - 1;
        assert |xs| + size - 1 == m + size;
        DivShift(m, size);
      }
    }
  }

  lemma DivShift(m: int, d: int)
    requires m >= 0 && d >= 1
    ensures (m + d) / d == m / d + 1
  {
    var q, r := m / d, m % d;
    assert m == q * d + r && 0 <= r < d;
    assert m + d == (q + 1) * d + r;
    var q', r' := (m + d) / d, (m + d) % d;
    assert m + d == q' * d + r' && 0 <= r' < d;
    if q' >= q + 2 {
      MulMono(q + 2, q', d);
      assert false;
    } else if q' <= q {
      MulMono(q', q, d);
      assert false;
    }
  }

  lemma MulMono(a: int, b: int, d: int)
    requires a <= b && d >= 0
    ensures a * d <= b * d
  {
  }

  /** No key occurs twice in the output. */
  lemma {:induction false} FirstsDistinct<A, K>(xs: seq<A>, key: A -> K)
    ensures forall i, j :: 0 <= i < j < |Firsts(xs, key)| ==> key(Firsts(xs, key)[i]) != key(Firsts(xs, key)[j])
    ensures Keys(Firsts(xs, key), key) == Keys(xs, key)
    decreases |xs|
  {
    if xs != [] {
      var init := xs[..|xs| - 1];
      var x := xs[|xs| - 1];
      FirstsDistinct(init, key);
      var f := Firsts(init, key);
      assert xs == init + [x];
      KeysAppend(init, [x], key);
      if key(x) in Keys(init, key) {
        assert Firsts(xs, key) == f;
      } else {
        assert Firsts(xs, key) == f + [x];
        KeysAppend(f, [x], key);
        forall i | 0 <= i < |f|
          ensures key(f[i]) != key(x)
        {
          assert key(f[i]) in Keys(f, key);
        }
      }
    }
  }

  lemma KeysAppend<A, K>(a: seq<A>, b: seq<A>, key: A -> K)
    ensures Keys(a + b, key) == Keys(a, key) + Keys(b, key)
  {
    var ab := a + b;
    forall k | k in Keys(ab, key)
      ensures k in Keys(a, key) + Keys(b, key)
    {
      var i :| 0 <= i < |ab| && key(ab[i]) == k;
      if i < |a| {
        assert ab[i] == a[i];
      } else {
        assert ab[i] == b[i - |a|];
      }
    }
    forall k | k in Keys(a, key) + Keys(b, key)
      ensures k in Keys(ab, key)
    {
      if k in Keys(a, key) {
        var i :| 0 <= i < |a| && key(a[i]) == k;
        assert ab[i] == a[i];
      } else {
        var i :| 0 <= i < |b| && key(b[i]) == k;
        assert ab[|a| + i] == b[i];
      }
    }
  }

  lemma KeysOne<A, K>(x: A, key: A -> K)
    ensures Keys([x], key) == {key(x)}
  {
    assert [x][0] == x;
    assert key(x) in Keys([x], key);
  }

  /** Appending an element appends it to the first occurrences exactly when its
      key is new. */
  lemma FirstsSnoc<A, K>(xs: seq<A>, x: A, key: A -> K)
    ensures Firsts(xs + [x], key) == Firsts(xs, key) + (if key(x) in Keys(xs, key) then [] else [x])
  {
    assert (xs + [x])[..|xs|] == xs;
  }
}
