// Facts about integer products and quotients that the solver does not find.
module Arithmetic {

  function Min(a: nat, b: nat): nat {
    if a <= b then a else b
  }

  function Max(a: nat, b: nat): nat {
    if a >= b then a else b
  }

  function Pow2(k: nat): (p: nat)
    ensures p > 0
  {
    if k == 0 then 1 else 2 * Pow2(k - 1)
  }

  lemma SmallMultiple(d: int, p: int)
    requires -p < d * p < p
    ensures d == 0
  {
  }

  lemma UniqueRemainder(q: nat, r: nat, p: nat)
    requires r < p
    ensures (q * p + r) / p == q && (q * p + r) % p == r
  {
    var n := q * p + r;
    assert (n / p - q) * p == r - n % p;
    SmallMultiple(n / p - q, p);
  }

  lemma CancelLess(a: nat, b: nat, c: nat)
    requires a * c < b * c
    ensures a < b
  {
  }

  lemma QuotientBelow(k: nat, n: nat, c: nat)
    requires c > 0 && k < n * c
    ensures k / c < n && k == k / c * c + k % c
  {
    CancelLess(k / c, n, c);
  }

  // Slots of k items each, one after the other: slot q ends by slot p's start.
  lemma SlotsDisjoint(q: nat, p: nat, k: nat)
    requires q < p
    ensures 0 <= q * k && q * k + k <= p * k
  {
    var gap := p - q - 1;
    assert gap * k >= 0 && p * k == q * k + k + gap * k;
  }

  // Cell (x, y) of a w-by-h grid read row by row.
  lemma CellInGrid(x: nat, y: nat, w: nat, h: nat)
    requires x < w && y < h
    ensures 0 <= y * w + x < w * h
  {
    SlotsDisjoint(y, h, w);
  }

  lemma CellUnique(x: nat, y: nat, u: nat, v: nat, w: nat)
    requires x < w && u < w
    ensures y * w + x == v * w + u <==> x == u && y == v
  {
    if y * w + x == v * w + u {
      assert (y - v) * w == u - x;
      SmallMultiple(y - v, w);
    }
  }

  lemma RowInGrid(y: nat, w: nat, h: nat)
    requires y < h
    ensures 0 <= y * w && y * w + w <= w * h
  {
    SlotsDisjoint(y, h, w);
  }

  lemma SlotApart(q: nat, p: nat, k: nat)
    ensures q < p ==> q * k + k <= p * k
    ensures p < q ==> p * k + k <= q * k
  {
    if q < p {
      SlotsDisjoint(q, p, k);
    } else if p < q {
      SlotsDisjoint(p, q, k);
    }
  }

  // n slots from slot `from` on end by slot `total`.
  lemma RunInside(from: nat, n: nat, total: nat, c: nat)
    requires from + n <= total
    ensures from * c + n * c <= total * c
  {
    var gap := total - (from + n);
    assert gap * c >= 0 && total * c == from * c + n * c + gap * c;
  }

  // n pixels from (x, y) on, in one row of a packed picture of c-byte pixels.
  lemma RunFits(x: nat, y: nat, n: nat, w: nat, h: nat, c: nat)
    requires x + n <= w && y < h
    ensures 0 <= (y * w + x) * c && 0 <= n * c && (y * w + x) * c + n * c <= w * h * c
  {
    RowInGrid(y, w, h);
    RunInside(y * w + x, n, w * h, c);
  }
}
