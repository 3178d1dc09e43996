/**
  Order-preserving selections from a list: the shape shared by the list comprehensions
  and the append-in-a-loop filters of the pipeline.
*/
module Sublists {

  /** `xs` is `ys` with some elements left out, the rest in their original order. */
  predicate Subsequence<T(==)>(xs: seq<T>, ys: seq<T>)
    decreases |ys|
  {
    if xs == [] then true
    else if ys == [] then false
    else if xs[0] == ys[0] then Subsequence(xs[1..], ys[1..])
    else Subsequence(xs, ys[1..])
  }

  /** `[x for x in xs if p(x)]`. */
  function Keep<T>(xs: seq<T>, p: T -> bool): (r: seq<T>)
    ensures |r| <= |xs|
    ensures forall i :: 0 <= i < |r| ==> p(r[i])
  {
    if xs == [] then [] else (if p(xs[0]) then [xs[0]] else []) + Keep(xs[1..], p)
  }

  lemma {:induction false} KeepAppend<T>(a: seq<T>, b: seq<T>, p: T -> bool)
    ensures Keep(a + b, p) == Keep(a, p) + Keep(b, p)
  {
    if a == [] {
      assert a + b == b;
    } else {
      assert (a + b)[0] == a[0] && (a + b)[1..] == a[1..] + b;
      KeepAppend(a[1..], b, p);
    }
  }

  lemma {:induction false} SubsequenceTail<T>(xs: seq<T>, ys: seq<T>)
    requires xs != [] && Subsequence(xs, ys)
    ensures Subsequence(xs[1..], ys)
    decreases |ys|, 0
  {
    if xs[0] != ys[0] {
      SubsequenceTail(xs, ys[1..]);
      SubsequenceExtend(xs[1..], ys[0], ys[1..]);
      assert [ys[0]] + ys[1..] == ys;
    } else {
      SubsequenceExtend(xs[1..], ys[0], ys[1..]);
      assert [ys[0]] + ys[1..] == ys;
    }
  }

  /** A subsequence stays one when an element is put in front of the longer list. */
  lemma {:induction false} SubsequenceExtend<T>(xs: seq<T>, y: T, ys: seq<T>)
    requires Subsequence(xs, ys)
    ensures Subsequence(xs, [y] + ys)
    decreases |ys|, 1
  {
    assert ([y] + ys)[1..] == ys;
    if xs != [] && xs[0] == y {
      SubsequenceTail(xs, ys);
    }
  }

  /** The kept elements are a subsequence of the input. */
  lemma {:induction false} KeepSubsequence<T>(xs: seq<T>, p: T -> bool)
    ensures Subsequence(Keep(xs, p), xs)
  {
    if xs != [] {
      KeepSubsequence(xs[1..], p);
      if !p(xs[0]) {
        assert Keep(xs, p) == Keep(xs[1..], p);
        SubsequenceExtend(Keep(xs[1..], p), xs[0], xs[1..]);
        assert [xs[0]] + xs[1..] == xs;
      } else {
        assert Keep(xs, p)[1..] == Keep(xs[1..], p);
      }
    }
  }

  /**
    Exactly the elements satisfying `p` are kept, each as often as it occurs in the input,
    and the rest are dropped.
  */
  lemma {:induction false} KeepCounts<T>(xs: seq<T>, p: T -> bool)
    ensures forall x :: multiset(Keep(xs, p))[x] == if p(x) then multiset(xs)[x] else 0
  {
    if xs != [] {
      KeepCounts(xs[1..], p);
      assert xs == [xs[0]] + xs[1..];
      assert multiset(xs) == multiset([xs[0]]) + multiset(xs[1..]);
    }
  }

  /** An element is kept exactly when it occurs in the input and satisfies `p`. */
  lemma KeepMembers<T>(xs: seq<T>, p: T -> bool, x: T)
    ensures x in Keep(xs, p) <==> x in xs && p(x)
  {
    KeepCounts(xs, p);
    assert x in Keep(xs, p) <==> multiset(Keep(xs, p))[x] > 0;
    assert x in xs <==> multiset(xs)[x] > 0;
  }

  /** Keeping by `q` after `p` is keeping by `q` alone when `q` implies `p`. */
  lemma {:induction false} KeepKeep<T>(xs: seq<T>, p: T -> bool, q: T -> bool)
    requires forall x :: q(x) ==> p(x)
    ensures Keep(Keep(xs, p), q) == Keep(xs, q)
  {
    if xs != [] {
      KeepKeep(xs[1..], p, q);
      KeepAppend(if p(xs[0]) then [xs[0]] else [], Keep(xs[1..], p), q);
    }
  }

  /** A list whose elements all pass is kept whole. */
  lemma {:induction false} KeepAll<T>(xs: seq<T>, p: T -> bool)
    requires forall i :: 0 <= i < |xs| ==> p(xs[i])
    ensures Keep(xs, p) == xs
  {
    if xs != [] {
      KeepAll(xs[1..], p);
    }
  }

  /** Rewriting the first element after a scanned prefix leaves the prefix and the rest alone. */
  lemma RewriteNext<T>(done: seq<T>, x: T, m: T, rest: seq<T>)
    ensures (done + ([x] + rest))[|done|] == x
    ensures (done + ([x] + rest))[|done| := m] == (done + [m]) + rest
  {
  }
}
