/** Order-preserving filtering, the shape of every loop in the adapter that
    walks a list and keeps some of its elements. */
module Seqs {
  import opened Wrappers

  /** The elements of xs satisfying keep, in their original order. */
  function Filter<T>(xs: seq<T>, keep: T -> bool): (r: seq<T>)
    ensures |r| <= |xs|
  {
    if xs == [] then []
    else Filter(xs[..|xs| - 1], keep) + (if keep(xs[|xs| - 1]) then [xs[|xs| - 1]] else [])
  }

  /** a can be obtained from b by deleting elements: a is a sublist of b in b's order. */
  ghost predicate IsSubsequence<T>(a: seq<T>, b: seq<T>)
    decreases |b|
  {
    a == [] ||
    (b != [] &&
     ((a[|a| - 1] == b[|b| - 1] && IsSubsequence(a[..|a| - 1], b[..|b| - 1])) ||
      IsSubsequence(a, b[..|b| - 1])))
  }

  lemma {:induction false} FilterIsSubsequence<T>(xs: seq<T>, keep: T -> bool)
    ensures IsSubsequence(Filter(xs, keep), xs)
  {
    if xs != [] {
      var init := xs[..|xs| - 1];
      FilterIsSubsequence(init, keep);
      var r := Filter(xs, keep);
      if keep(xs[|xs| - 1]) {
        assert r[..|r| - 1] == Filter(init, keep);
      } else {
        assert r == Filter(init, keep);
      }
    }
  }

  /** x is kept exactly when it is in xs and passes keep. */
  lemma {:induction false} FilterMembers<T>(xs: seq<T>, keep: T -> bool, x: T)
    ensures x in Filter(xs, keep) <==> x in xs && keep(x)
  {
    if xs != [] {
      var init := xs[..|xs| - 1];
      FilterMembers(init, keep, x);
      assert xs == init + [xs[|xs| - 1]];
    }
  }

  /** Every occurrence of a kept value survives, each exactly once;
      a value that fails keep never occurs. */
  lemma {:induction false} FilterCount<T>(xs: seq<T>, keep: T -> bool, x: T)
    ensures multiset(Filter(xs, keep))[x] == if keep(x) then multiset(xs)[x] else 0
  {
    if xs != [] {
      var init := xs[..|xs| - 1];
      FilterCount(init, keep, x);
      assert xs == init + [xs[|xs| - 1]];
    }
  }

  lemma {:induction false} FilterAll<T>(xs: seq<T>, keep: T -> bool)
    requires forall i :: 0 <= i < |xs| ==> keep(xs[i])
    ensures Filter(xs, keep) == xs
  {
    if xs != [] {
      FilterAll(xs[..|xs| - 1], keep);
    }
  }

  lemma FilterSingle<T>(x: T, keep: T -> bool)
    ensures Filter([x], keep) == if keep(x) then [x] else []
  {
    assert [x][..0] == [];
  }

  /** Filter distributes over concatenation. */
  lemma {:induction false} FilterAppend<T>(xs: seq<T>, ys: seq<T>, keep: T -> bool)
    ensures Filter(xs + ys, keep) == Filter(xs, keep) + Filter(ys, keep)
  {
    if ys != [] {
      var yinit := ys[..|ys| - 1];
      assert (xs + ys)[..|xs + ys| - 1] == xs + yinit;
      FilterAppend(xs, yinit, keep);
    } else {
      assert xs + ys == xs;
    }
  }

  /** Filtering twice is filtering once by both tests. */
  lemma {:induction false} FilterCompose<T>(xs: seq<T>, p: T -> bool, q: T -> bool, pq: T -> bool)
    requires forall x :: pq(x) == (p(x) && q(x))
    ensures Filter(Filter(xs, p), q) == Filter(xs, pq)
  {
    if xs != [] {
      var init := xs[..|xs| - 1];
      var last := xs[|xs| - 1];
      FilterCompose(init, p, q, pq);
      FilterAppend(Filter(init, p), if p(last) then [last] else [], q);
      var tail := if p(last) then [last] else [];
      assert Filter(tail, q) == if p(last) && q(last) then [last] else [] by {
        if p(last) {
          assert tail[..0] == [];
        }
      }
    }
  }

  // ---------------------------------------------------------------------------
  // Mapping with a partial function and keeping the results
  // ---------------------------------------------------------------------------

  function AsSeq<B>(o: Option<B>): (r: seq<B>)
    ensures |r| <= 1
  {
    match o
    case None => []
    case Some(y) => [y]
  }

  /** The results f gives for the elements of xs, in order, skipping the
      elements it maps to None. */
  function FilterMap<A, B>(xs: seq<A>, f: A -> Option<B>): (r: seq<B>)
    ensures |r| <= |xs|
  {
    if xs == [] then []
    else FilterMap(xs[..|xs| - 1], f) + AsSeq(f(xs[|xs| - 1]))
  }

  lemma FilterMapSnoc<A, B>(xs: seq<A>, x: A, f: A -> Option<B>)
    ensures FilterMap(xs + [x], f) == FilterMap(xs, f) + AsSeq(f(x))
  {
    assert (xs + [x])[..|xs|] == xs;
  }

  lemma {:induction false} FilterMapAppend<A, B>(xs: seq<A>, ys: seq<A>, f: A -> Option<B>)
    ensures FilterMap(xs + ys, f) == FilterMap(xs, f) + FilterMap(ys, f)
    decreases |ys|
  {
    if ys == [] {
      assert xs + ys == xs;
    } else {
      var yinit := ys[..|ys| - 1];
      assert (xs + ys)[..|xs + ys| - 1] == xs + yinit;
      assert (xs + ys)[|xs + ys| - 1] == ys[|ys| - 1];
      FilterMapAppend(xs, yinit, f);
    }
  }

  /** y is a result exactly when f gives it for some element. */
  lemma {:induction false} FilterMapMembers<A, B>(xs: seq<A>, f: A -> Option<B>, y: B)
    ensures y in FilterMap(xs, f) <==> exists k :: 0 <= k < |xs| && f(xs[k]) == Some(y)
    decreases |xs|
  {
    if xs != [] {
      var n := |xs|;
      var init := xs[..n - 1];
      FilterMapMembers(init, f, y);
      assert y in AsSeq(f(xs[n - 1])) <==> f(xs[n - 1]) == Some(y);
      if exists k :: 0 <= k < n && f(xs[k]) == Some(y) {
        var k :| 0 <= k < n && f(xs[k]) == Some(y);
        if k < n - 1 {
          assert init[k] == xs[k];
        }
      }
      if exists k :: 0 <= k < n - 1 && f(init[k]) == Some(y) {
        var k :| 0 <= k < n - 1 && f(init[k]) == Some(y);
        assert init[k] == xs[k];
      }
    }
  }

  /** An element f maps to None leaves no trace, wherever it sits. */
  lemma FilterMapSkips<A, B>(xs: seq<A>, x: A, ys: seq<A>, f: A -> Option<B>)
    requires f(x).None?
    ensures FilterMap(xs + [x] + ys, f) == FilterMap(xs + ys, f)
  {
    FilterMapAppend(xs + [x], ys, f);
    FilterMapSnoc(xs, x, f);
    FilterMapAppend(xs, ys, f);
  }
}
