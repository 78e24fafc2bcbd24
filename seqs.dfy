/** The array operations the pages use (`filter`, `filter` by index, `slice`,
    `filter(...).length`), stated once over Dafny sequences. */
module Seqs {

  /** `a` can be obtained from `b` by deleting elements: same elements, same order. */
  predicate IsSubsequence<T(==)>(a: seq<T>, b: seq<T>)
    decreases |b|
  {
    if a == [] then true
    else if b == [] then false
    else if a[0] == b[0] then IsSubsequence(a[1..], b[1..])
    else IsSubsequence(a, b[1..])
  }

  lemma {:induction false} SubsequenceRefl<T>(a: seq<T>)
    ensures IsSubsequence(a, a)
    decreases |a|
  {
    if a != [] { SubsequenceRefl(a[1..]); }
  }

  /** Skipping the first element of `b` keeps every subsequence of the rest. */
  lemma {:induction false} SubsequenceSkip<T>(a: seq<T>, b: seq<T>)
    requires b != [] && IsSubsequence(a, b[1..])
    ensures IsSubsequence(a, b)
    decreases |b|, 1
  {
    if a != [] && a[0] == b[0] {
      SubsequenceTail(a, b[1..]);
    }
  }

  /** Dropping the first element of a subsequence keeps it a subsequence. */
  lemma {:induction false} SubsequenceTail<T>(a: seq<T>, c: seq<T>)
    requires a != [] && IsSubsequence(a, c)
    ensures IsSubsequence(a[1..], c)
    decreases |c|, 2
  {
    if a[1..] != [] {
      if a[0] == c[0] {
        SubsequenceSkip(a[1..], c);
      } else {
        SubsequenceTail(a, c[1..]);
        SubsequenceSkip(a[1..], c);
      }
    }
  }

  /** `xs.filter(p)`: the elements satisfying `p`, in their original order. */
  function Filter<T(!new)>(p: T -> bool, xs: seq<T>): (r: seq<T>)
    ensures |r| <= |xs|
    ensures forall x | x in r :: x in xs && p(x)
    ensures forall k | 0 <= k < |xs| :: p(xs[k]) ==> xs[k] in r
    ensures IsSubsequence(r, xs)
    decreases |xs|
  {
    if xs == [] then []
    else if p(xs[0]) then [xs[0]] + Filter(p, xs[1..])
    else Filter(p, xs[1..])
  }

  /** `filter` keeps every copy of an element that satisfies the predicate
      and none of one that does not. */
  lemma {:induction false} FilterMultiset<T(!new)>(p: T -> bool, xs: seq<T>)
    ensures forall x :: multiset(Filter(p, xs))[x] == if p(x) then multiset(xs)[x] else 0
    decreases |xs|
  {
    if xs != [] {
      FilterMultiset(p, xs[1..]);
      assert xs == [xs[0]] + xs[1..];
      assert multiset(xs) == multiset([xs[0]]) + multiset(xs[1..]);
      if p(xs[0]) {
        assert multiset(Filter(p, xs)) == multiset([xs[0]]) + multiset(Filter(p, xs[1..]));
      }
    }
  }

  /** Filtering a sequence with one more element at the end adds that element
      exactly when it satisfies the predicate. */
  lemma {:induction false} FilterAppend<T(!new)>(p: T -> bool, xs: seq<T>, x: T)
    ensures Filter(p, xs + [x]) == Filter(p, xs) + (if p(x) then [x] else [])
    decreases |xs|
  {
    var tail := if p(x) then [x] else [];
    if xs == [] {
      assert [x][1..] == [];
      assert Filter(p, [x]) == tail;
    } else {
      var ys := xs + [x];
      assert ys[0] == xs[0] && ys[1..] == xs[1..] + [x];
      FilterAppend(p, xs[1..], x);
      var head := if p(xs[0]) then [xs[0]] else [];
      assert Filter(p, ys) == head + (Filter(p, xs[1..]) + tail);
      assert Filter(p, xs) == head + Filter(p, xs[1..]);
      assert head + (Filter(p, xs[1..]) + tail) == (head + Filter(p, xs[1..])) + tail;
    }
  }

  /** Filtering with a predicate that holds everywhere keeps the whole sequence. */
  lemma {:induction false} FilterAll<T(!new)>(p: T -> bool, xs: seq<T>)
    requires forall k | 0 <= k < |xs| :: p(xs[k])
    ensures Filter(p, xs) == xs
    decreases |xs|
  {
    if xs != [] {
      FilterAll(p, xs[1..]);
    }
  }

  /** `xs.filter(p).length`. */
  function Count<T(!new)>(p: T -> bool, xs: seq<T>): (n: nat)
    ensures n <= |xs|
  {
    |Filter(p, xs)|
  }

  /** One more element adds one to the count exactly when it satisfies the
      predicate; with `Count(p, []) == 0` this fixes the count of every
      sequence. */
  lemma CountAppend<T(!new)>(p: T -> bool, xs: seq<T>, x: T)
    ensures Count(p, xs + [x]) == Count(p, xs) + (if p(x) then 1 else 0)
  {
    FilterAppend(p, xs, x);
  }

  /** Two predicates that never hold together count at most the whole sequence. */
  lemma {:induction false} DisjointCounts<T(!new)>(p: T -> bool, q: T -> bool, xs: seq<T>)
    requires forall k | 0 <= k < |xs| :: !(p(xs[k]) && q(xs[k]))
    ensures Count(p, xs) + Count(q, xs) <= |xs|
    decreases |xs|
  {
    if xs != [] {
      DisjointCounts(p, q, xs[1..]);
    }
  }

  /** `xs.filter((_, index) => index !== i)`: every element except the one at `i`;
      an index outside the sequence removes nothing. */
  function RemoveAt<T>(xs: seq<T>, i: int): (r: seq<T>)
    ensures |r| == if 0 <= i < |xs| then |xs| - 1 else |xs|
    ensures forall k :: 0 <= k < |r| ==> r[k] == if 0 <= i <= k then xs[k + 1] else xs[k]
  {
    if 0 <= i < |xs| then xs[..i] + xs[i + 1..] else xs
  }

  /** `xs.slice(0, n)`: the first `n` elements, or all of them when there are fewer. */
  function Take<T>(xs: seq<T>, n: nat): (r: seq<T>)
    ensures |r| == if n < |xs| then n else |xs|
    ensures r <= xs
  {
    if n < |xs| then xs[..n] else xs
  }
}
