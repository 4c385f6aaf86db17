/** Order-keeping selections from a sequence, as `Array.prototype.filter` makes. */
module Sequences {
  /** `a` is `b` with some entries left out, the rest in their order. */
  predicate Subsequence<T(==)>(a: seq<T>, b: seq<T>) {
    if a == [] then true
    else if b == [] then false
    else if a[0] == b[0] then Subsequence(a[1..], b[1..])
    else Subsequence(a, b[1..])
  }

  lemma SubsequenceSkip<T>(a: seq<T>, b: seq<T>)
    requires b != [] && Subsequence(a, b[1..])
    ensures Subsequence(a, b)
    decreases |b|, 0
  {
    if a != [] && a[0] == b[0] {
      SubsequenceTail(a, b[1..]);
    }
  }

  lemma SubsequenceTail<T>(a: seq<T>, b: seq<T>)
    requires a != [] && Subsequence(a, b)
    ensures Subsequence(a[1..], b)
    decreases |b|, 1
  {
    if a[0] != b[0] {
      SubsequenceTail(a, b[1..]);
    }
    SubsequenceSkip(a[1..], b);
  }

  /** Keeping `x` at the end of both keeps the selection. */
  lemma {:induction false} SubsequenceSnoc<T>(a: seq<T>, b: seq<T>, x: T)
    requires Subsequence(a, b)
    ensures Subsequence(a + [x], b + [x])
    decreases |b|
  {
    if a == [] {
      assert a + [x] == [x];
      SubsequenceLast(b, x);
    } else if a[0] == b[0] {
      assert (a + [x])[1..] == a[1..] + [x] && (b + [x])[1..] == b[1..] + [x];
      SubsequenceSnoc(a[1..], b[1..], x);
    } else {
      assert (b + [x])[1..] == b[1..] + [x];
      SubsequenceSnoc(a, b[1..], x);
    }
  }

  /** A last entry on its own is a selection. */
  lemma {:induction false} SubsequenceLast<T>(b: seq<T>, x: T)
    ensures Subsequence([x], b + [x])
    decreases |b|
  {
    if b != [] && b[0] != x {
      assert (b + [x])[1..] == b[1..] + [x];
      SubsequenceLast(b[1..], x);
    }
  }

  /** Dropping a new last entry keeps the selection. */
  lemma {:induction false} SubsequenceExtend<T>(a: seq<T>, b: seq<T>, x: T)
    requires Subsequence(a, b)
    ensures Subsequence(a, b + [x])
    decreases |b|
  {
    if a != [] {
      assert (b + [x])[1..] == b[1..] + [x];
      if a[0] == b[0] {
        SubsequenceExtend(a[1..], b[1..], x);
      } else {
        SubsequenceExtend(a, b[1..], x);
      }
    }
  }
}
