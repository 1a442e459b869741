/** Options, results and the few sequence operations the other modules share. */
module Prelude {

  datatype Option<+T> = None | Some(value: T)

  datatype Result<+T, +E> = Ok(value: T) | Err(error: E)

  /** The elements of `s` that satisfy `p`, in order. */
  function Filter<T>(s: seq<T>, p: T -> bool): seq<T> {
    if s == [] then []
    else
      var rest := Filter(s[..|s| - 1], p);
      if p(s[|s| - 1]) then rest + [s[|s| - 1]] else rest
  }

  /** `s` with every repetition dropped: each value stays at its first occurrence. */
  function Distinct<T(==)>(s: seq<T>): seq<T> {
    if s == [] then []
    else
      var rest := Distinct(s[..|s| - 1]);
      if s[|s| - 1] in rest then rest else rest + [s[|s| - 1]]
  }

  /** The results of `f` on each element, end to end. */
  function FlatMap<A, B>(f: A -> seq<B>, xs: seq<A>): seq<B> {
    if xs == [] then [] else FlatMap(f, xs[..|xs| - 1]) + f(xs[|xs| - 1])
  }

  /** The state after taking the steps `xs` from `s`, one after the other. */
  function Fold<S, A>(f: (S, A) -> S, s: S, xs: seq<A>): S {
    if xs == [] then s else f(Fold(f, s, xs[..|xs| - 1]), xs[|xs| - 1])
  }

  /** What `f` yields on 0, 1, ... up to `n`, in order. */
  function Collect<T>(f: nat -> Option<T>, n: nat): seq<T> {
    if n == 0 then []
    else Collect(f, n - 1) + match f(n - 1) case None => [] case Some(x) => [x]
  }

  ghost predicate NoDuplicates<T>(s: seq<T>) {
    forall i, j :: 0 <= i < j < |s| ==> s[i] != s[j]
  }

  /** The index of the first element of `s` equal to `x`. */
  function Position<T(==)>(s: seq<T>, x: T): (r: Option<nat>)
    ensures r.Some? ==> r.value < |s| && s[r.value] == x && x !in s[..r.value]
    ensures r.None? ==> x !in s
  {
    if s == [] then None
    else if s[0] == x then Some(0)
    else
      match Position(s[1..], x)
      case None => None
      case Some(k) =>
        assert s[..k + 1] == [s[0]] + s[1..][..k];
        Some(k + 1)
  }

  // ----- filtering -----

  lemma {:induction false} FilterHas<T>(s: seq<T>, p: T -> bool, x: T)
    ensures x in Filter(s, p) <==> x in s && p(x)
  {
    if s != [] {
      FilterHas(s[..|s| - 1], p, x);
      assert s == s[..|s| - 1] + [s[|s| - 1]];
    }
  }

  lemma {:induction false} FilterAppend<T>(a: seq<T>, b: seq<T>, p: T -> bool)
    ensures Filter(a + b, p) == Filter(a, p) + Filter(b, p)
  {
    if b == [] {
      assert a + b == a;
    } else {
      FilterAppend(a, b[..|b| - 1], p);
      assert (a + b)[..|a + b| - 1] == a + b[..|b| - 1];
    }
  }

  // ----- mapping and folding -----

  lemma {:induction false} FlatMapHas<A, B>(f: A -> seq<B>, xs: seq<A>, y: B)
    ensures y in FlatMap(f, xs) <==> exists n :: 0 <= n < |xs| && y in f(xs[n])
  {
    if xs != [] {
      var init, last := xs[..|xs| - 1], |xs| - 1;
      FlatMapHas(f, init, y);
      if n :| 0 <= n < |init| && y in f(init[n]) {
        assert xs[n] == init[n];
      }
      if n :| 0 <= n < |xs| && y in f(xs[n]) {
        assert n < last ==> init[n] == xs[n];
      }
    }
  }

  lemma FlatMapOne<A, B>(f: A -> seq<B>, x: A)
    ensures FlatMap(f, [x]) == f(x)
  {
    assert [x][..|[x]| - 1] == [];
  }

  lemma FlatMapOneMore<A, B>(f: A -> seq<B>, xs: seq<A>, n: nat)
    requires n < |xs|
    ensures FlatMap(f, xs[..n + 1]) == FlatMap(f, xs[..n]) + f(xs[n])
  {
    assert xs[..n + 1][..n] == xs[..n];
  }

  lemma {:induction false} FlatMapCons<A, B>(f: A -> seq<B>, x: A, xs: seq<A>)
    ensures FlatMap(f, [x] + xs) == f(x) + FlatMap(f, xs)
  {
    if xs == [] {
      assert [x] + xs == [x] && [x][..0] == [];
    } else {
      FlatMapCons(f, x, xs[..|xs| - 1]);
      assert ([x] + xs)[..|xs|] == [x] + xs[..|xs| - 1];
    }
  }

  lemma {:induction false} FlatMapSame<A, B>(f: A -> seq<B>, g: A -> seq<B>, xs: seq<A>)
    requires forall n :: 0 <= n < |xs| ==> f(xs[n]) == g(xs[n])
    ensures FlatMap(f, xs) == FlatMap(g, xs)
  {
    if xs != [] {
      FlatMapSame(f, g, xs[..|xs| - 1]);
    }
  }

  lemma {:induction false} FoldAppend<S, A>(f: (S, A) -> S, s: S, first: seq<A>, rest: seq<A>)
    ensures Fold(f, s, first + rest) == Fold(f, Fold(f, s, first), rest)
  {
    if rest == [] {
      assert first + rest == first;
    } else {
      FoldAppend(f, s, first, rest[..|rest| - 1]);
      assert (first + rest)[..|first + rest| - 1] == first + rest[..|rest| - 1];
    }
  }

  // ----- first occurrences -----

  lemma {:induction false} DistinctHas<T>(s: seq<T>, x: T)
    ensures x in Distinct(s) <==> x in s
  {
    if s != [] {
      DistinctHas(s[..|s| - 1], x);
      assert s == s[..|s| - 1] + [s[|s| - 1]];
    }
  }

  lemma {:induction false} DistinctHasNoDuplicates<T>(s: seq<T>)
    ensures NoDuplicates(Distinct(s))
  {
    if s != [] {
      DistinctHasNoDuplicates(s[..|s| - 1]);
    }
  }

  lemma NoDuplicatesOneMore<T>(s: seq<T>, x: T)
    requires NoDuplicates(s) && x !in s
    ensures NoDuplicates(s + [x])
  {
  }

  /** At most one result per element, each one new: no result comes twice. */
  lemma {:induction false} FlatMapFresh<A, B>(f: A -> seq<B>, xs: seq<A>)
    requires forall k :: 0 <= k < |xs| ==> |f(xs[k])| <= 1
    requires forall k :: 0 <= k < |xs| && f(xs[k]) != [] ==> f(xs[k])[0] !in FlatMap(f, xs[..k])
    ensures NoDuplicates(FlatMap(f, xs))
  {
    if xs != [] {
      var n := |xs| - 1;
      forall k | 0 <= k < n && f(xs[..n][k]) != []
        ensures f(xs[..n][k])[0] !in FlatMap(f, xs[..n][..k])
      {
        assert xs[..n][..k] == xs[..k];
      }
      FlatMapFresh(f, xs[..n]);
      if f(xs[n]) != [] {
        NoDuplicatesOneMore(FlatMap(f, xs[..n]), f(xs[n])[0]);
      }
    }
  }

  /** The order of `Distinct(s)` is the order in which values are first met in `s`:
      a value that is met before another one also stands before it. */
  lemma {:induction false} DistinctKeepsFirstSeenOrder<T>(s: seq<T>, i: nat, j: nat)
    requires i < j < |Distinct(s)|
    ensures exists k | 0 <= k <= |s| :: Distinct(s)[i] in s[..k] && Distinct(s)[j] !in s[..k]
  {
    var init := s[..|s| - 1];
    if j < |Distinct(init)| {
      DistinctKeepsFirstSeenOrder(init, i, j);
      var k :| 0 <= k <= |init| && Distinct(init)[i] in init[..k] && Distinct(init)[j] !in init[..k];
      assert s[..k] == init[..k];
    } else {
      assert s[..|s| - 1] == init;
      assert j == |Distinct(init)| && Distinct(s) == Distinct(init) + [s[|s| - 1]];
      DistinctHas(init, Distinct(s)[i]);
      DistinctHas(init, Distinct(s)[j]);
    }
  }

  /** One more value is kept exactly if it was not met before. */
  lemma {:induction false} DistinctAppendOne<T>(s: seq<T>, x: T)
    ensures Distinct(s + [x]) == if x in s then Distinct(s) else Distinct(s) + [x]
  {
    assert (s + [x])[..|s + [x]| - 1] == s;
    DistinctHas(s, x);
  }

  lemma {:induction false} DistinctOfUnique<T>(s: seq<T>)
    requires NoDuplicates(s)
    ensures Distinct(s) == s
  {
    if s != [] {
      DistinctOfUnique(s[..|s| - 1]);
    }
  }

  lemma DistinctTwice<T>(s: seq<T>, t: seq<T>, x: T)
    requires Distinct(s) == Distinct(t) && (x in s <==> x in t)
    ensures Distinct(s + [x]) == Distinct(t + [x])
  {
    DistinctAppendOne(s, x);
    DistinctAppendOne(t, x);
  }

  /** Repetitions within the left part do not matter. */
  lemma {:induction false} DistinctLeft<T>(a: seq<T>, b: seq<T>)
    ensures Distinct(a + b) == Distinct(Distinct(a) + b)
  {
    if b == [] {
      DistinctHasNoDuplicates(a);
      DistinctOfUnique(Distinct(a));
      assert a + b == a && Distinct(a) + b == Distinct(a);
    } else {
      var init, x := b[..|b| - 1], b[|b| - 1];
      DistinctLeft(a, init);
      DistinctHas(a, x);
      assert x in a + init <==> x in Distinct(a) + init;
      DistinctTwice(a + init, Distinct(a) + init, x);
      assert a + b == a + init + [x];
      assert Distinct(a) + b == Distinct(a) + init + [x];
    }
  }

  /** Nor do those within the right part. */
  lemma {:induction false} DistinctRight<T>(a: seq<T>, b: seq<T>)
    ensures Distinct(a + b) == Distinct(a + Distinct(b))
  {
    if b != [] {
      var init, x := b[..|b| - 1], b[|b| - 1];
      DistinctRight(a, init);
      DistinctHas(init, x);
      assert a + b == a + init + [x];
      assert x in a + init <==> x in a + Distinct(init);
      DistinctTwice(a + init, a + Distinct(init), x);
      if x in init {
        DistinctAppendOne(a + init, x);
      } else {
        assert a + Distinct(b) == a + Distinct(init) + [x];
      }
    }
  }

  lemma {:induction false} FlatMapSameDistinct<A, B>(f: A -> seq<B>, g: A -> seq<B>, xs: seq<A>)
    requires forall n :: 0 <= n < |xs| ==> Distinct(f(xs[n])) == Distinct(g(xs[n]))
    ensures Distinct(FlatMap(f, xs)) == Distinct(FlatMap(g, xs))
  {
    if xs != [] {
      var init, x := xs[..|xs| - 1], xs[|xs| - 1];
      FlatMapSameDistinct(f, g, init);
      DistinctLeft(FlatMap(f, init), f(x));
      DistinctLeft(FlatMap(g, init), g(x));
      DistinctRight(Distinct(FlatMap(f, init)), f(x));
      DistinctRight(Distinct(FlatMap(g, init)), g(x));
    }
  }

  lemma DistinctIsOneIff<T>(s: seq<T>, x: T)
    ensures Distinct(s) == [x] <==> s != [] && forall y <- s :: y == x
  {
    var d := Distinct(s);
    DistinctHasNoDuplicates(s);
    assert |d| > 1 ==> d[0] != d[1];
    if s != [] && forall y <- s :: y == x {
      DistinctHas(s, s[0]);
      forall k | 0 <= k < |d|
        ensures d[k] == x
      {
        DistinctHas(s, d[k]);
      }
    }
    if d == [x] {
      forall y | y in s
        ensures y == x
      {
        DistinctHas(s, y);
      }
    }
  }

  // ----- substring search -----

  predicate OccursAt<T(==)>(pat: seq<T>, s: seq<T>, k: int) {
    0 <= k && k + |pat| <= |s| && s[k..k + |pat|] == pat
  }

  ghost predicate Contains<T>(pat: seq<T>, s: seq<T>) {
    exists k :: OccursAt(pat, s, k)
  }

  /** The first window of `s`, from index `k` on, that equals `pat`. */
  function FindFrom<T(==)>(pat: seq<T>, s: seq<T>, k: nat): (r: Option<nat>)
    ensures r.Some? ==> k <= r.value && OccursAt(pat, s, r.value)
    ensures r.Some? ==> forall j :: k <= j < r.value ==> !OccursAt(pat, s, j)
    ensures r.None? ==> forall j :: k <= j ==> !OccursAt(pat, s, j)
    decreases |s| - k
  {
    if k + |pat| > |s| then None
    else if s[k..k + |pat|] == pat then Some(k)
    else FindFrom(pat, s, k + 1)
  }

  function Find<T(==)>(pat: seq<T>, s: seq<T>): Option<nat> {
    FindFrom(pat, s, 0)
  }

  /** The head of the pattern does not come again inside the pattern, so two occurrences
      never overlap. */
  ghost predicate HeadIsUnique<T>(pat: seq<T>) {
    pat != [] && forall i :: 0 < i < |pat| ==> pat[i] != pat[0]
  }

  /** When such a pattern starts `rest`, no occurrence can straddle the end of `pre`: the
      search stops at `rest` exactly when `pre` does not contain the pattern by itself. */
  lemma FindAfterPrefix<T>(pat: seq<T>, pre: seq<T>, rest: seq<T>)
    requires HeadIsUnique(pat)
    requires pat <= rest
    ensures Find(pat, pre + rest) == Some(|pre|) <==> !Contains(pat, pre)
  {
    var s := pre + rest;
    assert s[|pre|..|pre| + |pat|] == rest[..|pat|] == pat;
    assert s[|pre|] == rest[..|pat|][0] == pat[0];
    assert OccursAt(pat, s, |pre|);
    if Contains(pat, pre) {
      var k :| OccursAt(pat, pre, k);
      assert s[k..k + |pat|] == pre[k..k + |pat|];
      assert OccursAt(pat, s, k);
    } else {
      forall j | 0 <= j < |pre|
        ensures !OccursAt(pat, s, j)
      {
        if j + |pat| <= |pre| {
          assert pre[j..j + |pat|] == s[j..j + |pat|];
          assert !OccursAt(pat, pre, j);
        } else if j + |pat| <= |s| {
          var i := |pre| - j;
          assert s[j..j + |pat|][i] == s[|pre|] == pat[0] != pat[i];
        }
      }
    }
  }
}
