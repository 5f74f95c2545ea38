/** Sequences compared up to order. */
module Sequences {

  function Without<T>(xs: seq<T>, k: nat): seq<T>
    requires k < |xs|
  {
    xs[..k] + xs[k + 1..]
  }

  lemma WithoutMultiset<T>(xs: seq<T>, k: nat)
    requires k < |xs|
    ensures multiset(xs) == multiset(Without(xs, k)) + multiset{xs[k]}
  {
    assert xs == xs[..k] + ([xs[k]] + xs[k + 1..]);
  }

  lemma CancelOne<T>(a: multiset<T>, b: multiset<T>, x: T)
    requires a + multiset{x} == b + multiset{x}
    ensures a == b
  {
    assert a == a + multiset{x} - multiset{x};
    assert b == b + multiset{x} - multiset{x};
  }

  lemma DropSame<T>(some: seq<T>, i: nat, other: seq<T>, k: nat)
    requires multiset(some) == multiset(other)
    requires i < |some| && k < |other| && some[i] == other[k]
    ensures multiset(Without(some, i)) == multiset(Without(other, k))
  {
    WithoutMultiset(some, i);
    WithoutMultiset(other, k);
    CancelOne(multiset(Without(some, i)), multiset(Without(other, k)), some[i]);
  }
}
