// The JPEG 2000 master: which resolution level to decode, and the rectangle the
// reduced decode delivers.
module Jp2Masters {
  import opened Arithmetic
  import opened Decimals
  import opened Eval
  import opened Levels
  import opened Tiles

  // 1 << min(level, 31)
  function Shift(level: nat): (p: U32)
    ensures p > 0
  {
    Pow2Below(Min(level, 31));
    Pow2(Min(level, 31))
  }

  lemma {:induction false} Pow2Grows(a: nat, b: nat)
    requires a < b
    ensures Pow2(a) < Pow2(b)
  {
    if a + 1 < b {
      Pow2Grows(a, b - 1);
    }
  }

  lemma Pow2Below(k: nat)
    requires k <= 31
    ensures Pow2(k) <= 0x8000_0000
  {
    Pow2Of31();
    if k < 31 {
      Pow2Grows(k, 31);
    }
  }

  lemma Pow2Of31()
    ensures Pow2(31) == 0x8000_0000
  {
    assert Pow2(7) == 128 && Pow2(8) == 256;
    Pow2Adds(8, 8);
    Pow2Adds(16, 8);
    Pow2Adds(24, 7);
  }

  lemma {:induction false} Pow2Adds(a: nat, b: nat)
    ensures Pow2(a + b) == Pow2(a) * Pow2(b)
  {
    if b > 0 {
      Pow2Adds(a, b - 1);
      Doubled(Pow2(a), Pow2(b - 1));
    }
  }

  lemma Doubled(p: nat, q: nat)
    ensures 2 * (p * q) == p * (2 * q)
  {
  }

  // At most 32 levels: the capped shift is the plain power of two.
  lemma ShiftIsPow2(level: nat)
    requires level < 32
    ensures Shift(level) == Pow2(level)
  {
  }

  datatype Rect = Rect(x: nat, y: nat, w: nat, h: nat)

  // u32::saturating_add and u32::saturating_sub
  function SatAdd(a: nat, b: nat): U32 {
    Saturate(a + b)
  }

  function Less(a: nat, b: nat): nat {
    if a >= b then a - b else 0
  }

  // Near edge down, far edge up.
  function Covering(rect: Rect, denom: nat): Rect
    requires denom > 0
  {
    var x0, y0 := rect.x / denom, rect.y / denom;
    var x1, y1 := DivCeil(SatAdd(rect.x, rect.w), denom), DivCeil(SatAdd(rect.y, rect.h), denom);
    Rect(x0, y0, Less(x1, x0), Less(y1, y0))
  }

  lemma CeilBelow(n: nat, d: nat)
    requires d > 0
    ensures DivCeil(n, d) <= n
  {
    var q := DivCeil(n, d);
    DivCeilIff(n, d, q);
    AtLeast(1, d, n);
    if q > n {
      AtLeast(n, q - 1, d);
    }
  }

  lemma CeilMonotone(a: nat, b: nat, d: nat)
    requires d > 0 && a <= b
    ensures DivCeil(a, d) <= DivCeil(b, d)
  {
    QuotientMonotone(a + d - 1, b + d - 1, d);
  }

  // ----- covering, one axis at a time -----

  predicate Spans(x: nat, length: nat, denom: nat, from: nat, to: nat) {
    from * denom <= x && x + length <= to * denom
  }

  // Whole samples [from, to) cover the span exactly when they take in the
  // covering computed: it is the smallest one.
  lemma SmallestCovering(x: nat, length: nat, denom: nat, from: nat, to: nat)
    requires denom > 0
    ensures Spans(x, length, denom, from, to) <==> from <= x / denom && DivCeil(x + length, denom) <= to
  {
    var start, end := x / denom, DivCeil(x + length, denom);
    QuotientIff(x, denom, start);
    DivCeilIff(x + length, denom, end);
    SlotApart(from, start, denom);
    SlotApart(end, to, denom);
    if start < from {
      SlotsDisjoint(start, from, denom);
    }
  }

  lemma FloorTwice(x: nat, a: nat, b: nat)
    requires a > 0 && b > 0
    ensures a * b > 0 && x / a / b == x / (a * b)
  {
    var q := x / a;
    var r := q / b;
    QuotientIff(x, a, q);
    QuotientIff(q, b, r);
    SlotsDisjoint(q, r * b + b, a);
    Regroup(r, a, b);
    AtLeast(r * b, q, a);
    QuotientIff(x, a * b, r);
  }

  lemma CeilTwice(x: nat, a: nat, b: nat)
    requires a > 0 && b > 0
    ensures a * b > 0 && DivCeil(DivCeil(x, a), b) == DivCeil(x, a * b)
  {
    var q := DivCeil(x, a);
    var r := DivCeil(q, b);
    DivCeilIff(x, a, q);
    DivCeilIff(q, b, r);
    CeilBrackets(x, a, b, q, r);
    DivCeilIff(x, a * b, r);
  }

  lemma CeilBrackets(x: nat, a: nat, b: nat, q: nat, r: nat)
    requires a > 0 && b > 0 && q * a - a < x <= q * a && r * b - b < q <= r * b
    ensures a * b > 0 && r * (a * b) - a * b < x <= r * (a * b)
  {
    Regroup(r, a, b);
    AtLeast(q, r * b, a);
    if r > 0 {
      LastWhole(r, b, q, a);
    }
  }

  lemma LastWhole(r: nat, b: nat, q: nat, a: nat)
    requires r > 0 && r * b - b < q
    ensures (r * b - b) * a + a <= q * a
  {
    var less := (r - 1) * b;
    assert less == r * b - b;
    SlotsDisjoint(less, q, a);
  }

  lemma Regroup(r: nat, a: nat, b: nat)
    ensures a * b >= 0 && r * b * a == r * (a * b) && (r * b + b) * a == r * (a * b) + a * b
    ensures (r * b - b) * a == r * (a * b) - a * b
  {
  }

  lemma AtLeast(m: nat, n: nat, k: nat)
    requires m <= n
    ensures m * k <= n * k
  {
  }

  // ----- covering rectangles -----

  predicate Fits(rect: Rect) {
    rect.x + rect.w <= U32_MAX && rect.y + rect.h <= U32_MAX
  }

  lemma CoveringEdges(rect: Rect, denom: nat)
    requires denom > 0 && Fits(rect)
    ensures var c := Covering(rect, denom);
      && c.x == rect.x / denom && c.x + c.w == DivCeil(rect.x + rect.w, denom)
      && c.y == rect.y / denom && c.y + c.h == DivCeil(rect.y + rect.h, denom)
  {
    FloorBelowCeil(rect.x, rect.w, denom);
    FloorBelowCeil(rect.y, rect.h, denom);
  }

  lemma FloorBelowCeil(x: nat, length: nat, denom: nat)
    requires denom > 0
    ensures x / denom <= DivCeil(x + length, denom)
    ensures length > 0 ==> x / denom < DivCeil(x + length, denom)
  {
    var start, end := x / denom, DivCeil(x + length, denom);
    QuotientIff(x, denom, start);
    DivCeilIff(x + length, denom, end);
    if end < start {
      SlotsDisjoint(end, start, denom);
    }
  }

  // A rectangle of samples covers the request exactly when it takes in Covering.
  lemma CoveringIsSmallest(rect: Rect, denom: nat, x0: nat, y0: nat, x1: nat, y1: nat)
    requires denom > 0 && Fits(rect)
    ensures var c := Covering(rect, denom);
      Spans(rect.x, rect.w, denom, x0, x1) && Spans(rect.y, rect.h, denom, y0, y1)
      <==> x0 <= c.x && c.x + c.w <= x1 && y0 <= c.y && c.y + c.h <= y1
  {
    CoveringEdges(rect, denom);
    SmallestCovering(rect.x, rect.w, denom, x0, x1);
    SmallestCovering(rect.y, rect.h, denom, y0, y1);
  }

  // Halving again and again is halving once.
  lemma CoveringComposes(rect: Rect, a: nat, b: nat)
    requires a > 0 && b > 0 && Fits(rect)
    ensures a * b > 0 && Covering(Covering(rect, a), b) == Covering(rect, a * b)
  {
    var mid := Covering(rect, a);
    FloorTwice(rect.x, a, b);
    FloorTwice(rect.y, a, b);
    CeilTwice(rect.x + rect.w, a, b);
    CeilTwice(rect.y + rect.h, a, b);
    CoveringEdges(rect, a);
    CeilBelow(rect.x + rect.w, a);
    CeilBelow(rect.y + rect.h, a);
    CoveringEdges(mid, b);
    CoveringEdges(rect, a * b);
  }

  lemma LevelsCompose(rect: Rect, a: nat, b: nat)
    requires a + b < 32 && Fits(rect)
    ensures Covering(Covering(rect, Shift(a)), Shift(b)) == Covering(rect, Shift(a + b))
  {
    Pow2Adds(a, b);
    CoveringComposes(rect, Shift(a), Shift(b));
  }

  // The reduced decode has at least as many columns as the output, and lies
  // inside the reduced image.
  lemma CoveringWideEnough(rect: Rect, denom: nat, outW: nat)
    requires denom > 0 && Fits(rect) && denom * outW <= rect.w
    ensures Covering(rect, denom).w >= outW
  {
    var c := Covering(rect, denom);
    CoveringEdges(rect, denom);
    SmallestCovering(rect.x, rect.w, denom, c.x, c.x + c.w);
    assert (c.x + c.w) * denom == c.x * denom + c.w * denom;
    if c.w < outW {
      SlotsDisjoint(c.w, outW, denom);
    }
  }

  lemma CoveringInside(rect: Rect, denom: nat, width: U32, height: U32)
    requires denom > 0 && rect.x + rect.w <= width && rect.y + rect.h <= height && rect.w > 0 && rect.h > 0
    ensures var c := Covering(rect, denom);
      0 < c.w && 0 < c.h && c.x + c.w <= DivCeil(width, denom) && c.y + c.h <= DivCeil(height, denom)
  {
    CoveringEdges(rect, denom);
    FloorBelowCeil(rect.x, rect.w, denom);
    FloorBelowCeil(rect.y, rect.h, denom);
    CeilMonotone(rect.x + rect.w, width, denom);
    CeilMonotone(rect.y + rect.h, height, denom);
  }

  // The outcome of LevelsFor.
  ghost predicate Chosen(levels: nat, needed: real, choice: nat) {
    && choice < levels
    && (choice > 0 ==> Shift(choice) as real <= needed)
    && forall level :: choice < level < levels ==> Shift(level) as real > needed
  }

  // The powers of two that fit a factor are those up to `choice`.
  ghost predicate Highest(levels: nat, needed: real, choice: nat) {
    forall level :: 0 <= level < levels ==> (Pow2(level) as real <= needed <==> level <= choice)
  }

  // With at most 32 resolution levels the level chosen is the highest whose
  // power of two does not exceed a factor of one or more.
  lemma ChosenIff(levels: nat, needed: real, choice: nat)
    requires 0 < levels <= 32 && needed >= 1.0 && choice < levels
    ensures Chosen(levels, needed, choice)
       <==> Highest(levels, needed, choice)
  {
    ShiftIsPow2(choice);
    if Chosen(levels, needed, choice) {
      forall level | 0 <= level < levels
        ensures Pow2(level) as real <= needed <==> level <= choice
      {
        ShiftIsPow2(level);
        if level < choice {
          Pow2Grows(level, choice);
        }
      }
    }
    if Highest(levels, needed, choice) {
      assert Pow2(choice) as real <= needed;
      forall level | choice < level < levels
        ensures Shift(level) as real > needed
      {
        ShiftIsPow2(level);
        assert !(Pow2(level) as real <= needed);
      }
    }
  }

  class Jp2Master {
    const width: U32
    const height: U32
    const resolutionLevels: nat

    predicate Valid() {
      width > 0 && height > 0 && 0 < resolutionLevels < 256
    }

    constructor (width: U32, height: U32, resolutionLevels: nat)
      ensures this.width == width && this.height == height && this.resolutionLevels == resolutionLevels
    {
      this.width, this.height, this.resolutionLevels := width, height, resolutionLevels;
    }

    // The highest level whose factor does not exceed `needed`, or none.
    method LevelsFor(needed: real) returns (choice: nat)
      requires Valid()
      ensures Chosen(resolutionLevels, needed, choice)
    {
      choice := 0;
      for level := 1 to resolutionLevels
        invariant choice < level
        invariant choice > 0 ==> Shift(choice) as real <= needed
        invariant forall l :: choice < l < level ==> Shift(l) as real > needed
      {
        if Shift(level) as real <= needed {
          choice := level;
        }
      }
    }

    // The level and rectangle a crop is decoded at.
    method DecodeAt(crop: CropRect, needed: real) returns (levels: nat, scaled: Rect)
      requires Valid() && crop.Inside(width, height)
      ensures Chosen(resolutionLevels, needed, levels)
      ensures scaled == Covering(Rect(crop.x, crop.y, crop.width, crop.height), Shift(levels))
      ensures forall outW :: 0 < outW <= crop.width && needed == Ratio(crop.width, outW) ==> scaled.w >= outW
      ensures 0 < scaled.w && 0 < scaled.h
      ensures scaled.x + scaled.w <= DivCeil(width, Shift(levels)) && scaled.y + scaled.h <= DivCeil(height, Shift(levels))
    {
      levels := LevelsFor(needed);
      var roi := Rect(crop.x, crop.y, crop.width, crop.height);
      scaled := Covering(roi, Shift(levels));
      CoveringInside(roi, Shift(levels), width, height);
      forall outW: int | 0 < outW <= crop.width && needed == Ratio(crop.width, outW)
        ensures scaled.w >= outW
      {
        NeededAtLeastOne(crop.width, outW);
        FactorFits(Shift(levels), outW, crop.width);
        CoveringWideEnough(roi, Shift(levels), outW);
      }
    }
  }

  // ----- info.json -----

  // The advertised size of a level is what a whole-image decode at it delivers.
  function SizeAt(width: nat, height: nat, level: nat): (nat, nat) {
    (DivCeil(width, Pow2(level)), DivCeil(height, Pow2(level)))
  }

  lemma AdvertisedIsDecoded(width: U32, height: U32, level: nat)
    requires level < 32
    ensures var c := Covering(Rect(0, 0, width, height), Shift(level));
      (c.x, c.y) == (0, 0) && (c.w, c.h) == SizeAt(width, height, level)
  {
    ShiftIsPow2(level);
    CoveringEdges(Rect(0, 0, width, height), Shift(level));
    QuotientIff(0, Shift(level), 0);
  }
}
