/**
  The host-side camera random-number stream. `next` is one step of
  RandomUInt: it advances the seed passed to it by reference and returns
  the advanced value.
*/
module Rng {

  /** The seed after `k` draws. */
  function Iterate(next: nat -> nat, seed: nat, k: nat): nat
  {
    if k == 0 then seed else next(Iterate(next, seed, k - 1))
  }

  /** Drawing `a` values and then `b` more is drawing `a + b` values. */
  lemma {:induction false} IterateAdd(next: nat -> nat, seed: nat, a: nat, b: nat)
    ensures Iterate(next, Iterate(next, seed, a), b) == Iterate(next, seed, a + b)
  {
    if b > 0 {
      IterateAdd(next, seed, a, b - 1);
    }
  }

  /** The first draw can be taken off the front of the stream. */
  lemma {:induction false} IterateFirst(next: nat -> nat, seed: nat, k: nat)
    ensures Iterate(next, next(seed), k) == Iterate(next, seed, k + 1)
  {
    if k > 0 {
      IterateFirst(next, seed, k - 1);
    }
  }
}
