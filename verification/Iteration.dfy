// Repeating an operation, and when repetition cycles.
module Iteration {
  import opened Arithmetic

  ghost function Iterate<T>(f: T -> T, k: nat, x: T): T {
    if k == 0 then x else f(Iterate(f, k - 1, x))
  }

  lemma {:induction false} IterateAdd<T>(f: T -> T, a: nat, b: nat, x: T)
    ensures Iterate(f, b, Iterate(f, a, x)) == Iterate(f, a + b, x)
  {
    if b > 0 {
      IterateAdd(f, a, b - 1, x);
    }
  }

  lemma IterateThree<T>(f: T -> T, x: T)
    ensures Iterate(f, 0, x) == x && Iterate(f, 1, x) == f(x)
    ensures Iterate(f, 2, x) == f(f(x)) && Iterate(f, 3, x) == f(f(f(x)))
  {
  }

  lemma IterateFour<T>(f: T -> T, x: T)
    ensures Iterate(f, 4, x) == f(f(f(f(x))))
  {
    assert Iterate(f, 2, x) == f(f(x));
  }

  lemma {:induction false} IteratePeriod<T(!new)>(f: T -> T, p: nat, k: nat, x: T)
    requires p > 0 && forall y :: Iterate(f, p, y) == y
    ensures Iterate(f, k, x) == Iterate(f, k % p, x)
    decreases k
  {
    if k >= p {
      IterateAdd(f, k - p, p, x);
      assert Iterate(f, p, Iterate(f, k - p, x)) == Iterate(f, k - p, x);
      IteratePeriod(f, p, k - p, x);
      RemainderStep(k, p);
    }
  }

  lemma RemainderStep(k: nat, p: nat)
    requires 0 < p <= k
    ensures k % p == (k - p) % p
  {
    var q, r := (k - p) / p, (k - p) % p;
    assert k == (q + 1) * p + r;
    UniqueRemainder(q + 1, r, p);
  }

  // If m between two f is m alone, m turns k steps of f into p - k.
  lemma {:induction false} IterateConjugate<T(!new)>(f: T -> T, m: T -> T, p: nat, k: nat, x: T)
    requires k <= p && forall y :: Iterate(f, p, y) == y
    requires forall y :: f(m(f(y))) == m(y)
    ensures Iterate(f, k, m(x)) == m(Iterate(f, p - k, x))
  {
    if k > 0 {
      IterateConjugate(f, m, p, k - 1, x);
      assert Iterate(f, p - (k - 1), x) == f(Iterate(f, p - k, x));
    }
  }
}
