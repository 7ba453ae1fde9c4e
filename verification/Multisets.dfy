/** A fact about multisets that sorting arguments share. */
module Multisets {
  /** Adding one element to each of two multisets loses nothing. */
  lemma EqualWithout<T>(a: multiset<T>, b: multiset<T>, x: T)
    requires multiset{x} + a == multiset{x} + b
    ensures a == b
  {
    assert a == (multiset{x} + a) - multiset{x} && b == (multiset{x} + b) - multiset{x};
  }
}
