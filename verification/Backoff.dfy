/** Doubling with a cap, the shape of every backoff in the daemon, and its closed form. */
module Backoff {
  function Min(a: nat, b: nat): nat { if a < b then a else b }

  function Max(a: nat, b: nat): nat { if a < b then b else a }

  function Pow2(n: nat): (p: nat)
    ensures p >= 1
  {
    if n == 0 then 1 else 2 * Pow2(n - 1)
  }

  /** One step of a ladder. */
  function Doubled(current: nat, cap: nat): nat {
    Min(current * 2, cap)
  }

  /** The closed form: `base` doubled `k` times, capped. */
  function Ladder(base: nat, cap: nat, k: nat): nat {
    Min(base * Pow2(k), cap)
  }

  /** One more step from rung `k` is rung `k + 1`. */
  lemma Climb(base: nat, cap: nat, k: nat)
    ensures Doubled(Ladder(base, cap, k), cap) == Ladder(base, cap, k + 1)
  {
    assert base * Pow2(k + 1) == 2 * (base * Pow2(k));
  }

  /** A first step from a base above the cap lands on the cap, which is where the closed form is. */
  lemma FirstClimb(base: nat, cap: nat)
    ensures Doubled(base, cap) == Ladder(base, cap, 1)
    ensures Ladder(base, cap, 0) == base <==> base <= cap
  {
    assert Pow2(1) == 2 * Pow2(0) == 2;
  }

  lemma ProductIsLarge(a: nat, b: nat)
    requires a >= 1
    ensures a * b >= b
  {
    var rest := a - 1;
    assert a * b == rest * b + b;
  }

  lemma LadderStartsAtTheBase(base: nat, cap: nat, k: nat)
    requires base <= cap
    ensures base <= Ladder(base, cap, k)
  {
    ProductIsLarge(Pow2(k), base);
  }
}
