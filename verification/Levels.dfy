// The levels of a pyramid: their order, the choice of one for a downscale, and
// the mapping of a full-resolution crop into it.
module Levels {
  import opened Wrappers
  import opened Arithmetic
  import opened Decimals
  import opened Tiles
  import opened Eval

  datatype Level = Level(ifd: nat, width: U32, height: U32, tileWidth: U32, tileHeight: U32, scaleFactor: U32)

  // Full-resolution pixels per pixel of a level, rounded, at least one.
  function ScaleFactor(fullW: nat, width: nat): U32
    requires width > 0
  {
    Max(RoundU32(Ratio(fullW, width)), 1)
  }

  // levels.windows(2): each level is smaller than the one before on both sides.
  predicate NeighboursDescend(levels: seq<Level>) {
    forall k {:trigger levels[k]} :: 0 < k < |levels| ==>
      levels[k].width < levels[k - 1].width && levels[k].height < levels[k - 1].height
  }

  // The levels of an opened pyramid, largest first.
  predicate Ladder(levels: seq<Level>) {
    && |levels| > 0 && NeighboursDescend(levels)
    && forall k {:trigger levels[k]} :: 0 <= k < |levels| ==>
      && 0 < levels[k].width && 0 < levels[k].height
      && levels[k].scaleFactor == ScaleFactor(levels[0].width, levels[k].width)
  }

  // The check on neighbours orders every pair.
  lemma {:induction false} AllPairsDescend(levels: seq<Level>, i: nat, j: nat)
    requires NeighboursDescend(levels) && i < j < |levels|
    ensures levels[j].width < levels[i].width && levels[j].height < levels[i].height
  {
    if i + 1 < j {
      AllPairsDescend(levels, i, j - 1);
    }
  }

  lemma RatioShrinks(n: nat, a: nat, b: nat)
    requires 0 < a <= b
    ensures Ratio(n, b) <= Ratio(n, a)
  {
    var q := Ratio(n, b);
    assert q * b as real == n as real;
    MulNonNegative(q, (b - a) as real);
    assert q * a as real <= n as real;
  }

  lemma ScaleFactorMonotone(fullW: nat, a: nat, b: nat)
    requires 0 < a <= b
    ensures ScaleFactor(fullW, b) <= ScaleFactor(fullW, a)
  {
    RatioShrinks(fullW, a, b);
  }

  lemma LadderRung(levels: seq<Level>, k: nat)
    requires Ladder(levels) && k < |levels|
    ensures 0 < levels[k].width && 0 < levels[k].height
    ensures levels[k].scaleFactor == ScaleFactor(levels[0].width, levels[k].width) >= 1
  {
  }

  lemma FullScale(n: nat)
    requires 0 < n
    ensures Ratio(n, n) == 1.0 && ScaleFactor(n, n) == 1
  {
    SelfQuotient(n as real);
  }

  lemma SelfQuotient(r: real)
    requires r != 0.0
    ensures r / r == 1.0
  {
  }

  // Scale factors start at one and never fall on the way down.
  lemma ScaleFactorsRise(levels: seq<Level>, i: nat, j: nat)
    requires Ladder(levels) && i <= j < |levels|
    ensures levels[0].scaleFactor == 1 <= levels[i].scaleFactor <= levels[j].scaleFactor
  {
    LadderRung(levels, 0);
    LadderRung(levels, i);
    LadderRung(levels, j);
    FullScale(levels[0].width);
    if i < j {
      AllPairsDescend(levels, i, j);
      ScaleFactorMonotone(levels[0].width, levels[j].width, levels[i].width);
    }
  }

  // ----- the factors in whole numbers -----

  // n is at most half above p / w.
  lemma HalfBelow(x: real, w: real, n: real, p: real, m: real)
    requires w > 0.0 && x * w == p && (2.0 * n - 1.0) * w == m
    ensures n <= x + 0.5 <==> m <= 2.0 * p
  {
    var gap := 2.0 * x + 1.0 - 2.0 * n;
    assert 2.0 * p - m == gap * w;
    if gap >= 0.0 {
      MulNonNegative(gap, w);
    } else {
      MulPositive(-gap, w);
    }
  }

  lemma RatioTimes(n: nat, d: nat)
    requires d > 0
    ensures Ratio(n, d) * d as real == n as real
  {
  }

  lemma OddMultiple(n: nat, w: nat)
    ensures (2.0 * n as real - 1.0) * w as real == ((2 * n - 1) * w) as real
  {
    assert ((2 * n - 1) * w) as real == (2 * n - 1) as real * w as real;
  }

  lemma FloorReaches(x: real, n: nat)
    ensures x.Floor >= n <==> n as real <= x
  {
  }

  // The ratio of the widths reaches n, rounded, exactly when the full width does
  // n - 1/2 level widths.
  lemma RoundReaches(fullW: U32, width: nat, n: nat)
    requires 0 < width <= fullW
    ensures (Ratio(fullW, width) + 0.5).Floor >= n <==> (2 * n - 1) * width <= 2 * fullW
  {
    FloorReaches(Ratio(fullW, width) + 0.5, n);
    RatioTimes(fullW, width);
    OddMultiple(n, width);
    HalfBelow(Ratio(fullW, width), width as real, n as real, fullW as real, ((2 * n - 1) * width) as real);
  }

  lemma FloorBelow(x: real, n: nat)
    requires x <= n as real
    ensures (x + 0.5).Floor <= n
  {
  }

  lemma RoundUnderCeiling(fullW: U32, width: nat)
    requires 0 < width <= fullW
    ensures 1 <= (Ratio(fullW, width) + 0.5).Floor <= U32_MAX
  {
    NeededAtLeastOne(fullW, width);
    RatioShrinks(fullW, 1, width);
    FloorBelow(Ratio(fullW, width), fullW);
  }

  lemma FactorReaches(fullW: U32, width: nat, n: nat)
    requires 0 < width <= fullW
    ensures ScaleFactor(fullW, width) >= n <==> (2 * n - 1) * width <= 2 * fullW
  {
    RoundUnderCeiling(fullW, width);
    RoundReaches(fullW, width, n);
  }

  // f is the whole number nearest to full over w, halves going up.
  predicate IsNearest(f: nat, w: nat, full: nat) {
    (2 * f - 1) * w <= 2 * full < (2 * f + 1) * w
  }

  // A level's factor is the whole number nearest to the full width over its own.
  lemma FactorIs(levels: seq<Level>, k: nat, f: nat)
    requires Ladder(levels) && k < |levels|
    ensures levels[k].scaleFactor == f <==> IsNearest(f, levels[k].width, levels[0].width)
  {
    LadderRung(levels, k);
    if k > 0 {
      AllPairsDescend(levels, 0, k);
    }
    FactorReaches(levels[0].width, levels[k].width, f);
    FactorReaches(levels[0].width, levels[k].width, f + 1);
  }

  // Each level half as wide as the one before, odd widths going either way.
  predicate Halved(levels: seq<Level>) {
    forall k {:trigger levels[k]} :: 0 < k < |levels| ==>
      2 * levels[k].width - 1 <= levels[k - 1].width <= 2 * levels[k].width + 1
  }

  lemma {:induction false} HalvedWidth(levels: seq<Level>, k: nat)
    requires Halved(levels) && k < |levels|
    ensures Pow2(k) * levels[k].width < levels[0].width + Pow2(k)
    ensures levels[0].width < Pow2(k) * levels[k].width + Pow2(k)
  {
    if k > 0 {
      HalvedWidth(levels, k - 1);
      HalfStep(Pow2(k - 1), levels[k - 1].width, levels[k].width);
    }
  }

  lemma HalfStep(f: nat, w: nat, half: nat)
    requires 2 * half - 1 <= w <= 2 * half + 1
    ensures f * w <= 2 * f * half + f && 2 * f * half <= f * w + f
  {
    var d: int := 2 * half - w;
    assert 2 * f * half - f * w == f * d;
    assert d == -1 || d == 0 || d == 1;
  }

  lemma NearestMultiple(f: nat, w: nat, full: nat)
    requires f * w < full + f && full < f * w + f && 2 * f - 2 < w
    ensures IsNearest(f, w, full)
  {
    var p := f * w;
    assert (2 * f - 1) * w == 2 * p - w && (2 * f + 1) * w == 2 * p + w;
  }

  // Levels made by halving have the powers of two as factors, down to those that
  // are about twice as wide as their factor.
  lemma HalvedFactor(levels: seq<Level>, k: nat)
    requires Ladder(levels) && Halved(levels) && k < |levels| && 2 * Pow2(k) - 2 < levels[k].width
    ensures levels[k].scaleFactor == Pow2(k)
  {
    HalvedWidth(levels, k);
    NearestMultiple(Pow2(k), levels[k].width, levels[0].width);
    FactorIs(levels, k, Pow2(k));
  }

  // ----- info.json's sizes -----

  function Sizes(levels: seq<Level>): (s: seq<(nat, nat)>)
    ensures |s| == |levels|
  {
    seq(|levels|, k requires 0 <= k < |levels| =>
      (levels[|levels| - 1 - k].width, levels[|levels| - 1 - k].height))
  }

  // The advertised sizes are the levels' sizes, each of them and no other.
  lemma SizesAreLevels(levels: seq<Level>, w: nat, h: nat)
    ensures (w, h) in Sizes(levels) <==> exists k :: 0 <= k < |levels| && (levels[k].width, levels[k].height) == (w, h)
  {
    if k :| 0 <= k < |levels| && (levels[k].width, levels[k].height) == (w, h) {
      assert Sizes(levels)[|levels| - 1 - k] == (w, h);
    }
  }

  // They ascend strictly in both dimensions.
  lemma SizesAscend(levels: seq<Level>, i: nat, j: nat)
    requires Ladder(levels) && i < j < |levels|
    ensures Sizes(levels)[i].0 < Sizes(levels)[j].0 && Sizes(levels)[i].1 < Sizes(levels)[j].1
  {
    AllPairsDescend(levels, |levels| - 1 - j, |levels| - 1 - i);
  }

  // ----- choosing a level -----

  // filter by factor, then max_by_key, over the first n levels: among equal
  // factors the last wins.
  function LastLargest(levels: seq<Level>, n: nat, bound: real): Option<Level>
    requires n <= |levels|
  {
    if n == 0 then None
    else
      var last := levels[n - 1];
      match LastLargest(levels, n - 1, bound)
      case None => if last.scaleFactor as real <= bound then Some(last) else None
      case Some(best) =>
        if last.scaleFactor as real <= bound && last.scaleFactor >= best.scaleFactor then Some(last) else Some(best)
  }

  function LevelForScale(levels: seq<Level>, needed: real): Level
    requires |levels| > 0
  {
    match LastLargest(levels, |levels|, MaxReal(needed, 1.0))
    case Some(level) => level
    case None => levels[0]
  }

  // Factors from one upwards.
  predicate Rising(levels: seq<Level>) {
    && |levels| > 0 && levels[0].scaleFactor == 1
    && forall i, j :: 0 <= i <= j < |levels| ==> levels[i].scaleFactor <= levels[j].scaleFactor
  }

  lemma LadderRises(levels: seq<Level>)
    requires Ladder(levels)
    ensures Rising(levels)
  {
    ScaleFactorsRise(levels, 0, 0);
    forall i, j | 0 <= i <= j < |levels|
      ensures levels[i].scaleFactor <= levels[j].scaleFactor
    {
      ScaleFactorsRise(levels, i, j);
    }
  }

  lemma {:induction false} LastLargestIs(levels: seq<Level>, n: nat, bound: real) returns (k: nat)
    requires Rising(levels) && 0 < n <= |levels| && bound >= 1.0
    ensures k < n && LastLargest(levels, n, bound) == Some(levels[k])
    ensures levels[k].scaleFactor as real <= bound
    ensures forall j :: k < j < n ==> levels[j].scaleFactor as real > bound
  {
    if n == 1 {
      k := 0;
    } else {
      var best := LastLargestIs(levels, n - 1, bound);
      k := if levels[n - 1].scaleFactor as real <= bound then n - 1 else best;
    }
  }

  // The level chosen meets the factor and every smaller one exceeds it: it is
  // the smallest level with enough detail, the last of those that tie.
  lemma ChosenLevel(levels: seq<Level>, needed: real) returns (k: nat)
    requires Ladder(levels)
    ensures k < |levels| && LevelForScale(levels, needed) == levels[k]
    ensures levels[k].scaleFactor as real <= MaxReal(needed, 1.0)
    ensures forall j :: k < j < |levels| ==> levels[j].scaleFactor as real > MaxReal(needed, 1.0)
  {
    LadderRises(levels);
    k := LastLargestIs(levels, |levels|, MaxReal(needed, 1.0));
  }

  // full is short of n widths and a half.
  predicate ShortOf(n: nat, w: nat, full: nat) {
    2 * full < (2 * n + 1) * w
  }

  function WholePart(needed: real): nat {
    MaxReal(needed, 1.0).Floor
  }

  // A factor is met exactly when the full width is short of that many widths of
  // the level and half a one.
  lemma FactorMet(levels: seq<Level>, k: nat, needed: real)
    requires Ladder(levels) && k < |levels| && needed >= 1.0
    ensures levels[k].scaleFactor as real <= needed <==> ShortOf(needed.Floor, levels[k].width, levels[0].width)
  {
    LadderRung(levels, k);
    if k > 0 {
      AllPairsDescend(levels, 0, k);
    }
    FactorReaches(levels[0].width, levels[k].width, needed.Floor + 1);
  }

  lemma ChosenExactly(levels: seq<Level>, needed: real, k: nat)
    requires Ladder(levels) && k < |levels|
    ensures var bound := MaxReal(needed, 1.0);
      LevelForScale(levels, needed) == levels[k] <==>
        levels[k].scaleFactor as real <= bound && (k + 1 == |levels| || levels[k + 1].scaleFactor as real > bound)
  {
    var chosen := ChosenLevel(levels, needed);
    LadderRises(levels);
    LastMet(levels, MaxReal(needed, 1.0), k, chosen);
    OneLevelOnly(levels, k, chosen);
  }

  // The choice in whole numbers: of the level and the next smaller one, only the
  // first is met by the whole part of the factor.
  lemma ChoiceIff(levels: seq<Level>, needed: real, k: nat)
    requires Ladder(levels) && k < |levels|
    ensures LevelForScale(levels, needed) == levels[k] <==>
      && ShortOf(WholePart(needed), levels[k].width, levels[0].width)
      && (k + 1 == |levels| || !ShortOf(WholePart(needed), levels[k + 1].width, levels[0].width))
  {
    ChosenExactly(levels, needed, k);
    FactorMet(levels, k, MaxReal(needed, 1.0));
    if k + 1 < |levels| {
      FactorMet(levels, k + 1, MaxReal(needed, 1.0));
    }
  }

  lemma LastMet(levels: seq<Level>, bound: real, k: nat, chosen: nat)
    requires Rising(levels) && k < |levels| && chosen < |levels| && levels[chosen].scaleFactor as real <= bound
    requires forall j :: chosen < j < |levels| ==> levels[j].scaleFactor as real > bound
    ensures k == chosen <==> levels[k].scaleFactor as real <= bound
                             && (k + 1 == |levels| || levels[k + 1].scaleFactor as real > bound)
  {
    if k < chosen {
      assert levels[k + 1].scaleFactor <= levels[chosen].scaleFactor;
    }
  }

  lemma OneLevelOnly(levels: seq<Level>, i: nat, j: nat)
    requires Ladder(levels) && i < |levels| && j < |levels|
    ensures levels[i] == levels[j] <==> i == j
  {
    if i < j {
      AllPairsDescend(levels, i, j);
    } else if j < i {
      AllPairsDescend(levels, j, i);
    }
  }

  // No smaller level has the detail a downscale by `needed` asks for.
  predicate FullSizeServes(levels: seq<Level>, needed: real)
    requires |levels| > 0
  {
    |levels| == 1 || (2 * WholePart(needed) + 1) * levels[1].width <= 2 * levels[0].width
  }

  // Then, and only then, the full image is read. A request that is enlarged, or
  // not halved, reads it unless the next level is wider than two thirds of it.
  lemma FullSizeIff(levels: seq<Level>, needed: real)
    requires Ladder(levels)
    ensures LevelForScale(levels, needed) == levels[0] <==> FullSizeServes(levels, needed)
    ensures needed < 2.0 ==>
      (FullSizeServes(levels, needed) <==> |levels| == 1 || 3 * levels[1].width <= 2 * levels[0].width)
  {
    LadderRung(levels, 0);
    ChoiceIff(levels, needed, 0);
    ShortOfItself(WholePart(needed), levels[0].width);
    if needed < 2.0 {
      assert WholePart(needed) == 1;
    }
  }

  lemma ShortOfItself(n: nat, w: nat)
    requires n >= 1 && w > 0
    ensures ShortOf(n, w, w)
  {
  }

  // ----- mapping a crop into a level -----

  datatype Region = Region(x: nat, y: nat, w: nat, h: nat)

  // Floor of the near edge, ceiling of the far edge, both held inside.
  function AxisStart(at: nat, factor: nat, size: nat): nat
    requires factor > 0 && size > 0
  {
    Min(at / factor, size - 1)
  }

  function AxisEnd(at: nat, length: nat, factor: nat, size: nat): nat
    requires factor > 0
  {
    Min(DivCeil(at + length, factor), size)
  }

  lemma AxisInside(at: nat, length: nat, factor: nat, size: nat)
    requires factor > 0 && size > 0 && length > 0
    ensures AxisStart(at, factor, size) < AxisEnd(at, length, factor, size) <= size
  {
    QuotientIff(at, factor, at / factor);
    DivCeilIff(at + length, factor, DivCeil(at + length, factor));
    CancelLess(at / factor, DivCeil(at + length, factor), factor);
  }

  function LevelRegion(level: Level, crop: CropRect): Region
    requires level.scaleFactor > 0 && level.width > 0 && level.height > 0 && crop.width > 0 && crop.height > 0
  {
    AxisInside(crop.x, crop.width, level.scaleFactor, level.width);
    AxisInside(crop.y, crop.height, level.scaleFactor, level.height);
    var left, top := AxisStart(crop.x, level.scaleFactor, level.width), AxisStart(crop.y, level.scaleFactor, level.height);
    var right := AxisEnd(crop.x, crop.width, level.scaleFactor, level.width);
    var bottom := AxisEnd(crop.y, crop.height, level.scaleFactor, level.height);
    Region(left, top, Max(right - left, 1), Max(bottom - top, 1))
  }

  // Every non-empty crop maps to a non-empty rectangle inside the level.
  lemma RegionInside(level: Level, crop: CropRect)
    requires level.scaleFactor > 0 && level.width > 0 && level.height > 0 && crop.width > 0 && crop.height > 0
    ensures var r := LevelRegion(level, crop);
      0 < r.w && 0 < r.h && r.x + r.w <= level.width && r.y + r.h <= level.height
  {
    AxisInside(crop.x, crop.width, level.scaleFactor, level.width);
    AxisInside(crop.y, crop.height, level.scaleFactor, level.height);
  }

  // One axis of it: whole samples from the one the crop starts in to the one it
  // ends in, as far as the level goes.
  predicate CoversAxis(from: nat, length: nat, at: nat, span: nat, factor: nat, size: nat) {
    && from * factor <= at && (at < from * factor + factor || from + 1 == size)
    && (at + span <= (from + length) * factor || from + length == size)
    && (from + length - 1) * factor < at + span
  }

  lemma StartCovers(at: nat, factor: nat, size: nat)
    requires factor > 0 && size > 0
    ensures var from := AxisStart(at, factor, size);
      from * factor <= at && (at < from * factor + factor || from + 1 == size)
  {
    QuotientIff(at, factor, at / factor);
    SlotApart(AxisStart(at, factor, size), at / factor, factor);
  }

  lemma EndCovers(at: nat, span: nat, factor: nat, size: nat)
    requires factor > 0 && size > 0 && span > 0
    ensures var end := AxisEnd(at, span, factor, size);
      (at + span <= end * factor || end == size) && end * factor - factor < at + span
  {
    var e := DivCeil(at + span, factor);
    DivCeilIff(at + span, factor, e);
    SlotApart(AxisEnd(at, span, factor, size), e, factor);
  }

  lemma AxisCovers(at: nat, span: nat, factor: nat, size: nat)
    requires factor > 0 && size > 0 && span > 0
    ensures AxisStart(at, factor, size) < AxisEnd(at, span, factor, size)
    ensures CoversAxis(AxisStart(at, factor, size), AxisEnd(at, span, factor, size) - AxisStart(at, factor, size),
                       at, span, factor, size)
  {
    AxisInside(at, span, factor, size);
    StartCovers(at, factor, size);
    EndCovers(at, span, factor, size);
    LastSample(AxisEnd(at, span, factor, size), factor);
  }

  lemma LastSample(end: nat, factor: nat)
    ensures (end - 1) * factor == end * factor - factor
  {
  }

  // The mapped rectangle covers the crop, cut off only by the level's edge, and
  // has no row or column that the crop does not touch.
  lemma RegionCovers(level: Level, crop: CropRect)
    requires level.scaleFactor > 0 && level.width > 0 && level.height > 0 && crop.width > 0 && crop.height > 0
    ensures var r := LevelRegion(level, crop);
      && CoversAxis(r.x, r.w, crop.x, crop.width, level.scaleFactor, level.width)
      && CoversAxis(r.y, r.h, crop.y, crop.height, level.scaleFactor, level.height)
  {
    AxisCovers(crop.x, crop.width, level.scaleFactor, level.width);
    AxisCovers(crop.y, crop.height, level.scaleFactor, level.height);
  }

  lemma StartIff(at: nat, factor: nat, size: nat, from: nat)
    requires factor > 0 && from < size
    ensures from * factor <= at && (at < from * factor + factor || from + 1 == size)
       <==> from == AxisStart(at, factor, size)
  {
    StartCovers(at, factor, size);
    SlotApart(from, AxisStart(at, factor, size), factor);
  }

  lemma EndIff(at: nat, span: nat, factor: nat, size: nat, end: nat)
    requires factor > 0 && span > 0 && end <= size && size > 0
    ensures (at + span <= end * factor || end == size) && end * factor - factor < at + span
       <==> end == AxisEnd(at, span, factor, size)
  {
    EndCovers(at, span, factor, size);
    SlotApart(end, AxisEnd(at, span, factor, size), factor);
  }

  lemma AxisIff(at: nat, span: nat, factor: nat, size: nat, from: nat, length: nat)
    requires factor > 0 && span > 0 && length > 0 && from + length <= size
    ensures CoversAxis(from, length, at, span, factor, size)
       <==> from == AxisStart(at, factor, size) && from + length == AxisEnd(at, span, factor, size)
  {
    StartIff(at, factor, size, from);
    EndIff(at, span, factor, size, from + length);
    LastSample(from + length, factor);
  }

  // And it is the only rectangle of the level that does.
  lemma RegionIff(level: Level, crop: CropRect, g: Region)
    requires level.scaleFactor > 0 && level.width > 0 && level.height > 0 && crop.width > 0 && crop.height > 0
    requires 0 < g.w && 0 < g.h && g.x + g.w <= level.width && g.y + g.h <= level.height
    ensures g == LevelRegion(level, crop) <==>
      && CoversAxis(g.x, g.w, crop.x, crop.width, level.scaleFactor, level.width)
      && CoversAxis(g.y, g.h, crop.y, crop.height, level.scaleFactor, level.height)
  {
    AxisInside(crop.x, crop.width, level.scaleFactor, level.width);
    AxisInside(crop.y, crop.height, level.scaleFactor, level.height);
    AxisIff(crop.x, crop.width, level.scaleFactor, level.width, g.x, g.w);
    AxisIff(crop.y, crop.height, level.scaleFactor, level.height, g.y, g.h);
  }

  // At factor one, on a level as large as the image, it is the crop itself.
  lemma RegionAtFullScale(level: Level, crop: CropRect)
    requires level.scaleFactor == 1 && crop.Inside(level.width, level.height)
    ensures LevelRegion(level, crop) == Region(crop.x, crop.y, crop.width, crop.height)
  {
  }

  // ----- enough detail -----

  // The width decoded for a crop that is to come out `outW` wide.
  function DecodedWidth(levels: seq<Level>, crop: CropRect, outW: nat): nat
    requires Ladder(levels) && crop.width > 0 && crop.height > 0 && outW > 0
  {
    var level := LevelForScale(levels, Ratio(crop.width, outW));
    ChosenIsSound(levels, Ratio(crop.width, outW));
    LevelRegion(level, crop).w
  }

  lemma ChosenIsSound(levels: seq<Level>, needed: real)
    requires Ladder(levels)
    ensures var level := LevelForScale(levels, needed); level.scaleFactor > 0 && level.width > 0 && level.height > 0
  {
    var k := ChosenLevel(levels, needed);
    ScaleFactorsRise(levels, k, k);
  }

  // Levels at least as wide as their factor makes the full image.
  predicate WideEnough(levels: seq<Level>)
    requires Ladder(levels)
  {
    forall k {:trigger levels[k]} :: 0 <= k < |levels| ==>
      levels[k].scaleFactor > 0 && levels[k].width >= levels[0].width / levels[k].scaleFactor
  }

  ghost predicate NeverTooCoarse(levels: seq<Level>)
    requires Ladder(levels)
  {
    forall crop: CropRect, outW: nat {:trigger DecodedWidth(levels, crop, outW)} ::
      crop.Inside(levels[0].width, levels[0].height) && 0 < outW <= crop.width ==>
        DecodedWidth(levels, crop, outW) >= outW
  }

  lemma FactorFits(factor: nat, outW: nat, cropW: nat)
    requires outW > 0 && factor as real <= Ratio(cropW, outW)
    ensures factor * outW <= cropW
  {
    var q := Ratio(cropW, outW);
    assert q * outW as real == cropW as real;
    MulNonNegative(q - factor as real, outW as real);
    assert (factor * outW) as real == factor as real * outW as real;
  }

  // f-fold detail for k output pixels: the span of k*f pixels from `at` covers k
  // whole level pixels, and the far edge of the image is no obstacle.
  lemma SpanCovers(at: nat, length: nat, f: nat, k: nat, size: nat, full: nat)
    requires f > 0 && size > 0 && f * k <= length && at + length <= full && size >= full / f && k > 0
    ensures AxisEnd(at, length, f, size) >= AxisStart(at, f, size) + k
  {
    var q := at / f;
    QuotientIff(at, f, q);
    assert (q + k) * f == q * f + f * k;
    QuotientIff(full, f, full / f);
    DivCeilIff(at + length, f, DivCeil(at + length, f));
    if DivCeil(at + length, f) < q + k {
      SlotsDisjoint(DivCeil(at + length, f), q + k, f);
    }
    if full / f < q + k {
      SlotsDisjoint(full / f, q + k, f);
    }
  }

  lemma WideEnoughSuffices(levels: seq<Level>, crop: CropRect, outW: nat)
    requires Ladder(levels) && WideEnough(levels)
    requires crop.Inside(levels[0].width, levels[0].height) && 0 < outW <= crop.width
    ensures DecodedWidth(levels, crop, outW) >= outW
  {
    var needed := Ratio(crop.width, outW);
    NeededAtLeastOne(crop.width, outW);
    var k := ChosenLevel(levels, needed);
    FactorFits(levels[k].scaleFactor, outW, crop.width);
    SpanCovers(crop.x, crop.width, levels[k].scaleFactor, outW, levels[k].width, levels[0].width);
  }

  lemma NeededAtLeastOne(cropW: nat, outW: nat)
    requires 0 < outW <= cropW
    ensures Ratio(cropW, outW) >= 1.0
  {
    RatioShrinks(cropW, outW, cropW);
    FullScale(cropW);
  }

  lemma OriginDecodes(levels: seq<Level>, crop: CropRect, outW: nat, j: nat)
    requires Ladder(levels) && crop.width > 0 && crop.height > 0 && outW > 0 && j < |levels|
    requires LevelForScale(levels, Ratio(crop.width, outW)) == levels[j] && crop.x == 0
    ensures DecodedWidth(levels, crop, outW) <= levels[j].width
  {
    LadderRung(levels, j);
    RegionInside(levels[j], crop);
  }

  lemma LevelServes(levels: seq<Level>, w: nat, outW: nat, j: nat)
    requires Ladder(levels) && NeverTooCoarse(levels) && j < |levels|
    requires 0 < outW <= w <= levels[0].width && LevelForScale(levels, Ratio(w, outW)) == levels[j]
    ensures outW <= levels[j].width
  {
    LadderRung(levels, 0);
    var crop := CropRect(0, 0, w, levels[0].height);
    OriginDecodes(levels, crop, outW, j);
    assert DecodedWidth(levels, crop, outW) >= outW;
  }

  // A level that meets the factor is not passed over for a wider one.
  lemma ChosenNoWider(levels: seq<Level>, k: nat, needed: real) returns (j: nat)
    requires Ladder(levels) && k < |levels| && 1.0 <= needed && levels[k].scaleFactor as real <= needed
    ensures j < |levels| && LevelForScale(levels, needed) == levels[j] && levels[j].width <= levels[k].width
  {
    j := ChosenLevel(levels, needed);
    if k < j {
      AllPairsDescend(levels, k, j);
    }
  }

  // The crop that exposes a narrow level: as many whole factors as fit.
  lemma NarrowLevelExposed(levels: seq<Level>, k: nat)
    requires Ladder(levels) && NeverTooCoarse(levels) && k < |levels|
    ensures levels[k].scaleFactor > 0 && levels[k].width >= levels[0].width / levels[k].scaleFactor
  {
    LadderRung(levels, k);
    var f, full := levels[k].scaleFactor, levels[0].width;
    var m := full / f;
    if m > 0 {
      QuotientIff(full, f, m);
      FactorIsNeeded(f, m);
      var j := ChosenNoWider(levels, k, Ratio(f * m, m));
      LevelServes(levels, f * m, m, j);
    }
  }

  lemma FactorIsNeeded(f: nat, m: nat)
    requires m > 0 && f > 0
    ensures Ratio(f * m, m) == f as real && 0 < m <= f * m == m * f
  {
    assert (f * m) as real == f as real * m as real;
  }

  // Downscaling never decodes fewer columns than it outputs exactly when every
  // level is as wide as its factor promises.
  lemma EnoughDetailIff(levels: seq<Level>)
    requires Ladder(levels)
    ensures NeverTooCoarse(levels) <==> WideEnough(levels)
  {
    if WideEnough(levels) {
      forall crop: CropRect, outW: nat | crop.Inside(levels[0].width, levels[0].height) && 0 < outW <= crop.width
        ensures DecodedWidth(levels, crop, outW) >= outW
      {
        WideEnoughSuffices(levels, crop, outW);
      }
    }
    if NeverTooCoarse(levels) {
      forall k | 0 <= k < |levels|
        ensures levels[k].scaleFactor > 0 && levels[k].width >= levels[0].width / levels[k].scaleFactor
      {
        NarrowLevelExposed(levels, k);
      }
    }
  }

  // It can fail: behind a 7-pixel image a 5-pixel level also rounds to factor
  // one, wins the tie, and serves a full-width request with 5 columns.
  lemma NarrowLevelIsChosen()
    ensures var levels := [Level(0, 7, 7, 8, 8, 1), Level(1, 5, 5, 8, 8, 1)];
      Ladder(levels) && DecodedWidth(levels, CropRect(0, 0, 7, 7), 7) == 5
  {
    var a, b := Level(0, 7, 7, 8, 8, 1), Level(1, 5, 5, 8, 8, 1);
    var levels := [a, b];
    assert ScaleFactor(7, 7) == 1 && ScaleFactor(7, 5) == 1;
    assert LastLargest(levels, 1, 1.0) == Some(a);
    assert LastLargest(levels, 2, 1.0) == Some(b);
    assert Ratio(7, 7) == 1.0;
    assert LevelForScale(levels, Ratio(7, 7)) == b;
  }
}
