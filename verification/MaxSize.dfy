// The `max` sizes: the limit scale is the best one, and when they are served.
module MaxSize {
  import opened Wrappers
  import opened Decimals
  import opened Grammar
  import opened Eval

  // What the float square root is assumed to deliver at one argument.
  predicate RootAt(sqrt: real -> real, x: real) {
    sqrt(x) >= 0.0 && sqrt(x) * sqrt(x) == x
  }

  predicate AreaRoot(sqrt: real -> real, rw: U32, rh: U32, limits: Limits)
    requires rw > 0 && rh > 0
  {
    RootAt(sqrt, AreaShare(limits.area, rw, rh))
  }

  predicate ScaledFits(scale: real, w: real, h: real, maxW: real, maxH: real, maxArea: real) {
    w * scale <= maxW && h * scale <= maxH && (w * scale) * (h * scale) <= maxArea
  }

  // The scaled region, unrounded, is inside all three limits.
  predicate Satisfies(scale: real, rw: U32, rh: U32, limits: Limits) {
    ScaledFits(scale, rw as real, rh as real, limits.width as real, limits.height as real, limits.area as real)
  }

  lemma ScaleUnderRatio(length: real, limit: real, t: real)
    requires length > 0.0
    ensures t <= limit / length <==> length * t <= limit
  {
    var q := limit / length;
    assert length * q == limit;
    if t <= q {
      MulNonNegative(length, q - t);
    } else {
      MulPositive(length, t - q);
    }
  }

  lemma SquareOrder(t: real, s: real)
    requires t >= 0.0 && s >= 0.0
    ensures t <= s <==> t * t <= s * s
  {
    if t <= s {
      MulNonNegative(s - t, s + t);
    } else {
      MulPositive(t - s, s + t);
    }
  }

  lemma ScaleUnderRoot(rw: real, rh: real, area: real, root: real, t: real)
    requires rw > 0.0 && rh > 0.0 && t >= 0.0 && root >= 0.0
    requires rw * rh > 0.0 && root * root == area / (rw * rh)
    ensures t <= root <==> (rw * t) * (rh * t) <= area
  {
    var p := rw * rh;
    SquareOrder(t, root);
    assert (rw * t) * (rh * t) == p * (t * t);
    assert p * (root * root) == area;
    if t <= root {
      MulNonNegative(p, root * root - t * t);
    } else {
      MulPositive(p, t * t - root * root);
    }
  }

  lemma FitScaleUnfolds(rw: U32, rh: U32, limits: Limits, sqrt: real -> real)
    requires rw > 0 && rh > 0 && AreaRoot(sqrt, rw, rh, limits)
    ensures var root := sqrt(AreaShare(limits.area, rw, rh));
      && LimitFitScale(rw, rh, limits, sqrt)
         == SmallestOf(rw as real, rh as real, limits.width as real, limits.height as real, root)
      && root >= 0.0 && root * root == AreaShare(limits.area, rw, rh)
  {
  }

  lemma AreaShareReal(area: nat, rw: U32, rh: U32)
    requires rw > 0 && rh > 0
    ensures rw as real * rh as real > 0.0
    ensures AreaShare(area, rw, rh) == area as real / (rw as real * rh as real)
  {
    AreaPositive(rw as real, rh as real);
    assert (rw * rh) as real == rw as real * rh as real;
  }

  // The limit scale satisfies every limit and no larger scale does.
  lemma FitScaleIsOptimal(rw: U32, rh: U32, limits: Limits, sqrt: real -> real, t: real)
    requires rw > 0 && rh > 0 && t >= 0.0 && AreaRoot(sqrt, rw, rh, limits)
    ensures Satisfies(t, rw, rh, limits) <==> t <= LimitFitScale(rw, rh, limits, sqrt)
  {
    FitScaleUnfolds(rw, rh, limits, sqrt);
    AreaShareReal(limits.area, rw, rh);
    SmallestOfThree(rw as real, rh as real, limits.width as real, limits.height as real, limits.area as real,
                    sqrt(AreaShare(limits.area, rw, rh)), t);
  }

  function SmallestOf(rw: real, rh: real, lw: real, lh: real, root: real): real
    requires rw > 0.0 && rh > 0.0
  {
    MinReal(MinReal(lw / rw, lh / rh), root)
  }

  lemma AreaPositive(rw: real, rh: real)
    requires rw > 0.0 && rh > 0.0
    ensures rw * rh > 0.0
  {
  }

  lemma SmallestOfThree(rw: real, rh: real, lw: real, lh: real, area: real, root: real, t: real)
    requires rw > 0.0 && rh > 0.0 && t >= 0.0 && root >= 0.0
    requires rw * rh > 0.0 && root * root == area / (rw * rh)
    ensures t <= SmallestOf(rw, rh, lw, lh, root) <==> ScaledFits(t, rw, rh, lw, lh, area)
  {
    var p, q, r := t <= lw / rw, t <= lh / rh, t <= root;
    assert p == (rw * t <= lw) by {
      ScaleUnderRatio(rw, lw, t);
    }
    assert q == (rh * t <= lh) by {
      ScaleUnderRatio(rh, lh, t);
    }
    assert r == ((rw * t) * (rh * t) <= area) by {
      ScaleUnderRoot(rw, rh, area, root, t);
    }
  }

  lemma FitScaleNonNegative(rw: U32, rh: U32, limits: Limits, sqrt: real -> real)
    requires rw > 0 && rh > 0 && AreaRoot(sqrt, rw, rh, limits)
    ensures LimitFitScale(rw, rh, limits, sqrt) >= 0.0
  {
  }

  // Scaled to less than a pixel.
  predicate Below(length: real, scale: real) {
    length * scale < 1.0
  }

  // A floored side is one pixel when the scale would take it below one, and
  // otherwise no more than the scaled length.
  lemma FloorSideBound(length: U32, scale: real)
    ensures FloorSide(length, scale) >= 1
    ensures Below(length as real, scale) ==> FloorSide(length, scale) == 1
    ensures !Below(length as real, scale) ==> FloorSide(length, scale) as real <= length as real * scale
  {
    var x := length as real * scale;
    assert Below(length as real, scale) <==> x < 1.0;
  }

  lemma ProductBound(a: nat, b: nat, x: real, y: real, limit: nat)
    requires a as real <= x && b as real <= y && x * y <= limit as real
    ensures a * b <= limit
  {
    MulNonNegative(a as real, y - b as real);
    MulNonNegative(y, x - a as real);
    assert (a * b) as real == a as real * b as real;
  }

  // The sides a `max` request asks for.
  function MaxSides(upscale: bool, rw: U32, rh: U32, limits: Limits, sqrt: real -> real): (U32, U32)
    requires rw > 0 && rh > 0
  {
    var scale := MaxScale(upscale, rw, rh, limits, sqrt);
    (FloorSide(rw, scale), FloorSide(rh, scale))
  }

  // One side was held at a pixel and the other alone is over the area limit.
  predicate HeldAndOver(rw: U32, rh: U32, scale: real, limits: Limits) {
    || (Below(rw as real, scale) && FloorSide(rh, scale) > limits.area)
    || (Below(rh as real, scale) && FloorSide(rw, scale) > limits.area)
  }

  lemma FlooredWithinLimits(rw: U32, rh: U32, scale: real, limits: Limits)
    requires scale >= 0.0 && Satisfies(scale, rw, rh, limits) && limits.width >= 1 && limits.height >= 1
    ensures var (w, h) := (FloorSide(rw, scale), FloorSide(rh, scale));
      && 1 <= w <= limits.width && 1 <= h <= limits.height
      && (!WithinLimits(w, h, limits) <==> HeldAndOver(rw, rh, scale, limits))
  {
    var (w, h) := (FloorSide(rw, scale), FloorSide(rh, scale));
    FloorSideBound(rw, scale);
    FloorSideBound(rh, scale);
    if !Below(rw as real, scale) && !Below(rh as real, scale) {
      ProductBound(w, h, rw as real * scale, rh as real * scale, limits.area);
    }
  }

  lemma HeldIff(upscale: bool, rw: U32, rh: U32, limits: Limits, sqrt: real -> real)
    requires rw > 0 && rh > 0 && AreaRoot(sqrt, rw, rh, limits)
    requires limits.width >= 1 && limits.height >= 1
    ensures var (w, h) := MaxSides(upscale, rw, rh, limits, sqrt);
      && 1 <= w <= limits.width && 1 <= h <= limits.height
      && (!WithinLimits(w, h, limits) <==>
            HeldAndOver(rw, rh, MaxScale(upscale, rw, rh, limits, sqrt), limits))
  {
    var scale := MaxScale(upscale, rw, rh, limits, sqrt);
    ScaleInRange(upscale, rw, rh, limits, sqrt);
    FitScaleIsOptimal(rw, rh, limits, sqrt, scale);
    FlooredWithinLimits(rw, rh, scale, limits);
  }

  lemma ScaleInRange(upscale: bool, rw: U32, rh: U32, limits: Limits, sqrt: real -> real)
    requires rw > 0 && rh > 0 && AreaRoot(sqrt, rw, rh, limits)
    ensures 0.0 <= MaxScale(upscale, rw, rh, limits, sqrt) <= LimitFitScale(rw, rh, limits, sqrt)
  {
    FitScaleNonNegative(rw, rh, limits, sqrt);
  }

  // ----- the condition on the inputs alone -----

  // The region is so long and narrow that its long side, at the scale the area
  // allows, is more than the area limit by itself, and the side limit lets it be.
  predicate TooLong(across: nat, along: nat, area: nat, cap: nat) {
    area < cap && (area + 1) * (area + 1) * across <= area * along
  }

  predicate MaxOverLimits(rw: nat, rh: nat, limits: Limits) {
    || limits.width == 0 || limits.height == 0 || limits.area == 0
    || TooLong(rw, rh, limits.area, limits.height) || TooLong(rh, rw, limits.area, limits.width)
  }

  // The same over reals, and a side scaled past the area limit.
  predicate LongFor(w: real, h: real, area: real, cap: real) {
    area + 1.0 <= cap && (area + 1.0) * (area + 1.0) * w <= area * h
  }

  predicate Past(length: real, scale: real, area: real) {
    length * scale >= area + 1.0
  }

  lemma TooLongReal(across: nat, along: nat, area: nat, cap: nat)
    ensures TooLong(across, along, area, cap) <==> LongFor(across as real, along as real, area as real, cap as real)
  {
    var m := area + 1;
    assert (m * m) as real == m as real * m as real;
    assert (m * m * across) as real == (m * m) as real * across as real;
    assert (area * along) as real == area as real * along as real;
  }

  lemma OverNeeds(across: real, along: real, s: real, area: real, m: real)
    requires across > 0.0 && along > 0.0 && m >= 0.0
    requires along * s >= m && (across * s) * (along * s) <= area
    ensures m * m * across <= area * along
  {
    var b := along * s;
    MulNonNegative(b - m, b + m);
    MulNonNegative(across, b * b - m * m);
    MulNonNegative(along, area - (across * s) * b);
    assert along * ((across * s) * b) == across * (b * b);
  }

  lemma OverReached(across: real, along: real, area: real, m: real, t: real)
    requires across >= 1.0 && along > 0.0 && area >= 0.0 && m == area + 1.0
    requires m * m * across <= area * along && t == m / along
    ensures 0.0 <= t <= 1.0 && along * t == m && across * t <= 1.0 && (across * t) * (along * t) <= area
  {
    assert along * t == m;
    var b := across * t;
    assert along * (b * m) == m * m * across;
    DivideBy(along, b * m, area);
    DivideBy(m, b, 1.0);
    MulNonNegative(t, across - 1.0);
  }

  lemma DivideBy(d: real, x: real, y: real)
    requires d > 0.0 && d * x <= d * y
    ensures x <= y
  {
    if x > y {
      MulPositive(d, x - y);
    }
  }

  lemma HeldDown(a: real, b: real, area: real)
    requires a * b <= area && b > area && area >= 0.0
    ensures a < 1.0
  {
    if a >= 1.0 {
      MulNonNegative(a - 1.0, b);
    }
  }

  // A floored side is over an area limit exactly when the scaled length is.
  lemma FloorSideOver(length: U32, scale: real, area: nat)
    requires area >= 1 && length as real * scale <= U32_MAX as real
    ensures FloorSide(length, scale) > area <==> Past(length as real, scale, area as real)
  {
  }

  lemma OverThenLong(w: real, h: real, s: real, capW: real, cap: real, area: real)
    requires w > 0.0 && h > 0.0 && area >= 0.0 && ScaledFits(s, w, h, capW, cap, area) && Past(h, s, area)
    ensures Below(w, s) && LongFor(w, h, area, cap)
  {
    OverNeeds(w, h, s, area, area + 1.0);
    HeldDown(w * s, h * s, area);
  }

  lemma LongThenOver(w: real, h: real, s: real, best: real, capW: real, cap: real, area: real)
    requires w >= 1.0 && h > 0.0 && area >= 0.0 && capW >= 1.0 && LongFor(w, h, area, cap)
    requires s == best || s == 1.0
    requires ScaledFits((area + 1.0) / h, w, h, capW, cap, area) ==> (area + 1.0) / h <= best
    ensures Past(h, s, area)
  {
    var t := (area + 1.0) / h;
    OverReached(w, h, area, area + 1.0, t);
    assert ScaledFits(t, w, h, capW, cap, area);
    MulNonNegative(h, s - t);
  }

  lemma PastIffLong(w: real, h: real, s: real, best: real, capW: real, cap: real, area: real)
    requires w >= 1.0 && h > 0.0 && area >= 0.0 && capW >= 1.0 && (s == best || s == 1.0)
    requires ScaledFits(s, w, h, capW, cap, area)
    requires ScaledFits((area + 1.0) / h, w, h, capW, cap, area) ==> (area + 1.0) / h <= best
    ensures Below(w, s) && Past(h, s, area) <==> LongFor(w, h, area, cap)
  {
    if Past(h, s, area) {
      OverThenLong(w, h, s, capW, cap, area);
    } else if LongFor(w, h, area, cap) {
      LongThenOver(w, h, s, best, capW, cap, area);
    }
  }

  // Both ways round, on the region's real sides.
  lemma EitherPastIffLong(w: real, h: real, s: real, best: real, lw: real, lh: real, area: real)
    requires w >= 1.0 && h >= 1.0 && area >= 0.0 && lw >= 1.0 && lh >= 1.0 && (s == best || s == 1.0)
    requires ScaledFits(s, w, h, lw, lh, area)
    requires ScaledFits((area + 1.0) / h, w, h, lw, lh, area) ==> (area + 1.0) / h <= best
    requires ScaledFits((area + 1.0) / w, w, h, lw, lh, area) ==> (area + 1.0) / w <= best
    ensures Below(w, s) && Past(h, s, area) <==> LongFor(w, h, area, lh)
    ensures Below(h, s) && Past(w, s, area) <==> LongFor(h, w, area, lw)
  {
    PastIffLong(w, h, s, best, lw, lh, area);
    FitsSwapped(s, w, h, lw, lh, area);
    FitsSwapped((area + 1.0) / w, w, h, lw, lh, area);
    PastIffLong(h, w, s, best, lh, lw, area);
  }

  lemma FitsSwapped(t: real, w: real, h: real, maxW: real, maxH: real, area: real)
    ensures ScaledFits(t, w, h, maxW, maxH, area) <==> ScaledFits(t, h, w, maxH, maxW, area)
  {
  }

  lemma ScaleMeetsLimits(upscale: bool, rw: U32, rh: U32, limits: Limits, sqrt: real -> real, t: real)
    requires rw > 0 && rh > 0 && AreaRoot(sqrt, rw, rh, limits) && t >= 0.0
    ensures var scale, best := MaxScale(upscale, rw, rh, limits, sqrt), LimitFitScale(rw, rh, limits, sqrt);
      && (scale == best || scale == 1.0) && Satisfies(scale, rw, rh, limits)
      && (Satisfies(t, rw, rh, limits) ==> t <= best)
  {
    ScaleInRange(upscale, rw, rh, limits, sqrt);
    FitScaleIsOptimal(rw, rh, limits, sqrt, MaxScale(upscale, rw, rh, limits, sqrt));
    FitScaleIsOptimal(rw, rh, limits, sqrt, t);
  }

  lemma HeldAndOverMeans(rw: U32, rh: U32, scale: real, limits: Limits)
    requires limits.area >= 1 && Satisfies(scale, rw, rh, limits)
    ensures HeldAndOver(rw, rh, scale, limits) <==>
      || (Below(rw as real, scale) && Past(rh as real, scale, limits.area as real))
      || (Below(rh as real, scale) && Past(rw as real, scale, limits.area as real))
  {
    FloorSideOver(rw, scale, limits.area);
    FloorSideOver(rh, scale, limits.area);
  }

  lemma HeldAndOverIff(upscale: bool, rw: U32, rh: U32, limits: Limits, sqrt: real -> real)
    requires rw > 0 && rh > 0 && AreaRoot(sqrt, rw, rh, limits)
    requires limits.width >= 1 && limits.height >= 1 && limits.area >= 1
    ensures HeldAndOver(rw, rh, MaxScale(upscale, rw, rh, limits, sqrt), limits) <==> MaxOverLimits(rw, rh, limits)
  {
    var scale, best := MaxScale(upscale, rw, rh, limits, sqrt), LimitFitScale(rw, rh, limits, sqrt);
    ScaleMeetsLimits(upscale, rw, rh, limits, sqrt, (limits.area as real + 1.0) / rh as real);
    ScaleMeetsLimits(upscale, rw, rh, limits, sqrt, (limits.area as real + 1.0) / rw as real);
    HeldAndOverMeans(rw, rh, scale, limits);
    EitherPastIffLong(rw as real, rh as real, scale, best, limits.width as real, limits.height as real,
                      limits.area as real);
    TooLongReal(rw, rh, limits.area, limits.height);
    TooLongReal(rh, rw, limits.area, limits.width);
  }

  // A `max` size, flagged or not, is over the limits exactly when a limit is
  // zero or the region is too long for the area limit one way or the other.
  lemma MaxServedIff(upscale: bool, rw: U32, rh: U32, limits: Limits, sqrt: real -> real)
    requires rw > 0 && rh > 0 && AreaRoot(sqrt, rw, rh, limits)
    ensures var (w, h) := MaxSides(upscale, rw, rh, limits, sqrt);
      && 1 <= w && 1 <= h
      && (limits.width >= 1 && limits.height >= 1 ==> w <= limits.width && h <= limits.height)
      && (!WithinLimits(w, h, limits) <==> MaxOverLimits(rw, rh, limits))
  {
    var scale := MaxScale(upscale, rw, rh, limits, sqrt);
    FloorSideBound(rw, scale);
    FloorSideBound(rh, scale);
    if limits.width >= 1 && limits.height >= 1 {
      HeldIff(upscale, rw, rh, limits, sqrt);
      if limits.area >= 1 {
        HeldAndOverIff(upscale, rw, rh, limits, sqrt);
      } else {
        NoAreaAtAll(FloorSide(rw, scale), FloorSide(rh, scale), limits);
      }
    }
  }

  lemma NoAreaAtAll(w: nat, h: nat, limits: Limits)
    requires w >= 1 && h >= 1 && limits.area == 0
    ensures !WithinLimits(w, h, limits)
  {
  }

  lemma MaxResolves(upscale: bool, rw: U32, rh: U32, limits: Limits, sqrt: real -> real)
    requires rw > 0 && rh > 0
    ensures var r := ResolveSize(Size(upscale, Max), rw, rh, limits, sqrt);
      r.Success? && (r.value.0, r.value.1) == MaxSides(upscale, rw, rh, limits, sqrt)
  {
    if !upscale {
      NeverEnlargesUnflagged(Size(upscale, Max), rw, rh, limits, sqrt);
    }
  }

  // So that is exactly when a `max` request whose region resolves is refused,
  // and a refusal of it is always for the limits.
  lemma MaxRefusedIff(request: ImageRequest, fullW: U32, fullH: U32, limits: Limits, sqrt: real -> real)
    requires Legal(request) && request.size.kind.Max? && fullW > 0 && fullH > 0
    requires var region := ResolveRegion(request.region, fullW, fullH);
      region.Success? && AreaRoot(sqrt, region.value.width, region.value.height, limits)
    ensures var crop, r := ResolveRegion(request.region, fullW, fullH).value, Evaluate(request, fullW, fullH, limits, sqrt);
      && (r == Failure(ExceedsLimits) <==> MaxOverLimits(crop.width, crop.height, limits))
      && (r.Success? <==> !MaxOverLimits(crop.width, crop.height, limits))
  {
    var crop := ResolveRegion(request.region, fullW, fullH).value;
    assert request.size == Size(request.size.upscale, Max);
    MaxResolves(request.size.upscale, crop.width, crop.height, limits, sqrt);
    MaxServedIff(request.size.upscale, crop.width, crop.height, limits, sqrt);
  }

  // So a `max` request on a region of the image is always answered when the
  // area limit covers the longer side limit.
  lemma MaxAlwaysServed(request: ImageRequest, fullW: U32, fullH: U32, limits: Limits, sqrt: real -> real)
    requires Legal(request) && request.size.kind.Max? && fullW > 0 && fullH > 0
    requires limits.width >= 1 && limits.height >= 1
    requires limits.area >= limits.width && limits.area >= limits.height
    requires var region := ResolveRegion(request.region, fullW, fullH);
      region.Success? ==> AreaRoot(sqrt, region.value.width, region.value.height, limits)
    ensures Evaluate(request, fullW, fullH, limits, sqrt).Success?
       <==> ResolveRegion(request.region, fullW, fullH).Success?
  {
    if ResolveRegion(request.region, fullW, fullH).Success? {
      MaxRefusedIff(request, fullW, fullH, limits, sqrt);
    }
  }

  // Without that, `max` itself can be refused: one column of a million pixels
  // under a height limit of 1000 and an area limit of 500.
  lemma MaxCanBeRefused(sqrt: real -> real, rotation: Rotation, quality: Quality, format: Format)
    requires RootAt(sqrt, 0.0005) && LegalRotation(rotation)
    ensures Evaluate(ImageRequest(Full, Size(false, Max), rotation, quality, format), 1, 1_000_000,
                     Limits(1000, 1000, 500), sqrt) == Failure(ExceedsLimits)
  {
    assert AreaShare(500, 1, 1_000_000) == 0.0005;
    MaxRefusedIff(ImageRequest(Full, Size(false, Max), rotation, quality, format), 1, 1_000_000,
                  Limits(1000, 1000, 500), sqrt);
  }
}
