// What each kind of size gives and when it is refused, in exact arithmetic on
// the sides of the region and of the request.
module SizeMeaning {
  import opened Wrappers
  import opened Decimals
  import opened Grammar
  import opened Eval
  import opened MaxSize

  // The side that `given` pixels along one side leave the other.
  predicate KeepsAspect(across: U32, given: U32, along: U32, n: nat)
    requires along > 0
  {
    RoundsTo(across as real * given as real / along as real, n)
  }

  predicate IsPercent(length: U32, percent: Decimal, n: nat) {
    RoundsTo(percent.Value() * length as real / 100.0, n)
  }

  // The sides a size asks of a region of rw by rh.
  predicate Asks(kind: SizeKind, rw: U32, rh: U32, w: nat, h: nat)
    requires rw > 0 && rh > 0
  {
    match kind
    case Max => false
    case Width(a) => w == a && KeepsAspect(rh, a, rw, h)
    case Height(a) => h == a && KeepsAspect(rw, a, rh, w)
    case Scaled(n) => IsPercent(rw, n, w) && IsPercent(rh, n, h)
    case WidthHeight(a, b) => (w, h) == (a, b)
    case Confined(a, b) =>
      if a * rh <= b * rw then w == a && KeepsAspect(rh, a, rw, h)
      else h == b && KeepsAspect(rw, b, rh, w)
  }

  // Whether it asks for more than the region has.
  predicate AsksForMore(kind: SizeKind, rw: U32, rh: U32) {
    match kind
    case Max => false
    case Width(a) => a > rw
    case Height(a) => a > rh
    case Scaled(n) => false
    case WidthHeight(a, b) => a > rw || b > rh
    case Confined(a, b) => a > rw && b > rh
  }

  lemma OpenSide(across: U32, given: U32, along: U32, n: nat)
    requires along > 0
    ensures RoundU32(Times(across, Ratio(given, along))) == n <==> KeepsAspect(across, given, along, n)
  {
    ScaleAssociates(across, given, along);
    RoundIs(Times(across, Ratio(given, along)), n);
  }

  lemma GivenSide(given: U32, along: U32)
    requires along > 0
    ensures RoundU32(Times(along, Ratio(given, along))) == given
  {
    TimesRatio(given, along);
    RoundWhole(given, Times(along, Ratio(given, along)));
  }

  lemma ScaledSide(length: U32, percent: Decimal, n: nat)
    ensures RoundU32(Times(length, percent.Value() / 100.0)) == n <==> IsPercent(length, percent, n)
  {
    var v, x := percent.Value(), length as real;
    assert x * (v / 100.0) == v * x / 100.0;
    RoundIs(Times(length, v / 100.0), n);
  }

  // a of rw is no more than b of rh.
  lemma RatiosCompare(a: nat, rw: nat, b: nat, rh: nat)
    requires rw > 0 && rh > 0
    ensures Ratio(a, rw) <= Ratio(b, rh) <==> a * rh <= b * rw
  {
    QuotientsCompare(a as real, rw as real, b as real, rh as real);
    ProductReal(a, rh);
    ProductReal(b, rw);
  }

  lemma ProductReal(a: nat, b: nat)
    ensures (a * b) as real == a as real * b as real
  {
  }

  lemma QuotientsCompare(a: real, w: real, b: real, h: real)
    requires w > 0.0 && h > 0.0
    ensures a / w <= b / h <==> a * h <= b * w
  {
    var p, q := a / w, b / h;
    assert p * w == a;
    assert q * h == b;
    CrossCompare(p, q, w, h);
  }

  lemma CrossCompare(p: real, q: real, w: real, h: real)
    requires w > 0.0 && h > 0.0
    ensures p <= q <==> (p * w) * h <= (q * h) * w
  {
    var area := w * h;
    MulPositive(w, h);
    assert (p * w) * h == p * area && (q * h) * w == q * area;
    if p <= q {
      MulNonNegative(q - p, area);
    } else {
      MulPositive(p - q, area);
    }
  }

  lemma RatioOverOne(a: nat, rw: nat)
    requires rw > 0
    ensures Ratio(a, rw) > 1.0 <==> a > rw
  {
    var p := Ratio(a, rw);
    assert p * rw as real == a as real;
    if p > 1.0 {
      MulPositive(p - 1.0, rw as real);
    } else {
      MulNonNegative(1.0 - p, rw as real);
    }
  }

  predicate Answers(size: Size, rw: U32, rh: U32, limits: Limits, sqrt: real -> real, w: nat, h: nat)
    requires LegalSize(size) && rw > 0 && rh > 0
  {
    RequestedSize(size, rw, rh, limits, sqrt)
    == if !size.upscale && AsksForMore(size.kind, rw, rh) then Failure(UpscaleWithoutFlag) else Success((w, h))
  }

  lemma OneSideIs(size: Size, rw: U32, rh: U32, limits: Limits, sqrt: real -> real, w: nat, h: nat)
    requires LegalSize(size) && rw > 0 && rh > 0 && (size.kind.Width? || size.kind.Height?)
    requires Asks(size.kind, rw, rh, w, h)
    ensures Answers(size, rw, rh, limits, sqrt, w, h)
  {
    match size.kind
    case Width(a) => OpenSide(rh, a, rw, h);
    case Height(a) => OpenSide(rw, a, rh, w);
  }

  lemma ScaledIs(size: Size, rw: U32, rh: U32, limits: Limits, sqrt: real -> real, w: nat, h: nat)
    requires LegalSize(size) && rw > 0 && rh > 0 && size.kind.Scaled? && Asks(size.kind, rw, rh, w, h)
    ensures Answers(size, rw, rh, limits, sqrt, w, h)
  {
    ScaledSide(rw, size.kind.percent, w);
    ScaledSide(rh, size.kind.percent, h);
  }

  lemma BoxIs(size: Size, rw: U32, rh: U32, limits: Limits, sqrt: real -> real, w: nat, h: nat)
    requires LegalSize(size) && rw > 0 && rh > 0 && size.kind.Confined? && Asks(size.kind, rw, rh, w, h)
    ensures Answers(size, rw, rh, limits, sqrt, w, h)
  {
    ConfinedIs(size.kind.w, size.kind.h, rw, rh, w, h);
  }

  // The size resolved is the one asked for, and it is refused for want of the
  // flag exactly when it asks for more.
  lemma RequestedIs(size: Size, rw: U32, rh: U32, limits: Limits, sqrt: real -> real, w: nat, h: nat)
    requires LegalSize(size) && rw > 0 && rh > 0 && Asks(size.kind, rw, rh, w, h)
    ensures Answers(size, rw, rh, limits, sqrt, w, h)
  {
    match size.kind
    case Scaled(_) => ScaledIs(size, rw, rh, limits, sqrt, w, h);
    case WidthHeight(_, _) =>
    case Confined(_, _) => BoxIs(size, rw, rh, limits, sqrt, w, h);
    case _ => OneSideIs(size, rw, rh, limits, sqrt, w, h);
  }

  lemma ConfinedIs(a: U32, b: U32, rw: U32, rh: U32, w: nat, h: nat)
    requires rw > 0 && rh > 0 && Asks(Confined(a, b), rw, rh, w, h)
    ensures var fit := MinReal(Ratio(a, rw), Ratio(b, rh));
      && (fit > 1.0 <==> a > rw && b > rh)
      && RoundU32(Times(rw, fit)) == w && RoundU32(Times(rh, fit)) == h
  {
    RatiosCompare(a, rw, b, rh);
    RatioOverOne(a, rw);
    RatioOverOne(b, rh);
    if a * rh <= b * rw {
      GivenSide(a, rw);
      OpenSide(rh, a, rw, h);
    } else {
      GivenSide(b, rh);
      OpenSide(rw, b, rh, w);
    }
  }

  lemma AspectExists(across: U32, given: U32, along: U32) returns (n: nat)
    requires along > 0
    ensures KeepsAspect(across, given, along, n)
  {
    n := RoundU32(Times(across, Ratio(given, along)));
    OpenSide(across, given, along, n);
  }

  lemma PercentExists(length: U32, percent: Decimal) returns (n: nat)
    ensures IsPercent(length, percent, n)
  {
    n := RoundU32(Times(length, percent.Value() / 100.0));
    ScaledSide(length, percent, n);
  }

  // Every size asks for some sides.
  lemma SidesExist(kind: SizeKind, rw: U32, rh: U32) returns (w: nat, h: nat)
    requires !kind.Max? && rw > 0 && rh > 0
    ensures Asks(kind, rw, rh, w, h)
  {
    match kind
    case Width(a) =>
      w := a;
      h := AspectExists(rh, a, rw);
    case Height(a) =>
      w := AspectExists(rw, a, rh);
      h := a;
    case Scaled(n) =>
      w := PercentExists(rw, n);
      h := PercentExists(rh, n);
    case WidthHeight(a, b) =>
      w, h := a, b;
    case Confined(a, b) =>
      if a * rh <= b * rw {
        w := a;
        h := AspectExists(rh, a, rw);
      } else {
        w := AspectExists(rw, b, rh);
        h := b;
      }
  }

  // What a request evaluates to, whatever its size asks for: refused for want of
  // the flag, as less than a pixel, or by the limits, and otherwise given it.
  lemma ServedAsAsked(request: ImageRequest, fullW: U32, fullH: U32, limits: Limits, sqrt: real -> real, w: nat, h: nat)
    requires Legal(request) && fullW > 0 && fullH > 0 && !request.size.kind.Max?
    requires ResolveRegion(request.region, fullW, fullH).Success?
    requires var crop := ResolveRegion(request.region, fullW, fullH).value;
      Asks(request.size.kind, crop.width, crop.height, w, h)
    ensures var crop := ResolveRegion(request.region, fullW, fullH).value;
      var r := Evaluate(request, fullW, fullH, limits, sqrt);
      if !request.size.upscale && AsksForMore(request.size.kind, crop.width, crop.height) then
        r == Failure(UpscaleWithoutFlag)
      else if w == 0 || h == 0 then r == Failure(BelowOnePixel)
      else if !WithinLimits(w, h, limits) then r == Failure(ExceedsLimits)
      else r.Success? && (r.value.crop, r.value.outW, r.value.outH) == (crop, w, h)
  {
    var crop := ResolveRegion(request.region, fullW, fullH).value;
    RequestedIs(request.size, crop.width, crop.height, limits, sqrt, w, h);
    if !request.size.upscale && !AsksForMore(request.size.kind, crop.width, crop.height) {
      NeverEnlargesUnflagged(request.size, crop.width, crop.height, limits, sqrt);
    }
  }

  // ----- max -----

  // The largest scale there is: no limit is exceeded, and without the flag
  // nothing grows.
  ghost predicate Largest(scale: real, upscale: bool, rw: U32, rh: U32, limits: Limits) {
    scale >= 0.0 && forall t: real {:trigger Satisfies(t, rw, rh, limits)} :: t >= 0.0 ==>
      (t <= scale <==> Satisfies(t, rw, rh, limits) && (upscale || t <= 1.0))
  }

  // A length at that scale, cut down to whole pixels, but not to none.
  predicate CutTo(length: U32, scale: real, n: nat) {
    var x := length as real * scale;
    if x < 1.0 then n == 1 else n as real <= x < n as real + 1.0
  }

  predicate UnderCeiling(length: U32, scale: real) {
    length as real * scale <= U32_MAX as real
  }

  lemma ScaledUnderCeiling(scale: real, rw: U32, rh: U32, limits: Limits)
    requires Satisfies(scale, rw, rh, limits)
    ensures UnderCeiling(rw, scale) && UnderCeiling(rh, scale)
  {
  }

  lemma LargestIs(scale: real, upscale: bool, rw: U32, rh: U32, limits: Limits, sqrt: real -> real)
    requires rw > 0 && rh > 0 && AreaRoot(sqrt, rw, rh, limits) && Largest(scale, upscale, rw, rh, limits)
    ensures scale == MaxScale(upscale, rw, rh, limits, sqrt)
  {
    var best := MaxScale(upscale, rw, rh, limits, sqrt);
    ScaleInRange(upscale, rw, rh, limits, sqrt);
    FitScaleIsOptimal(rw, rh, limits, sqrt, best);
    FitScaleIsOptimal(rw, rh, limits, sqrt, scale);
    assert Satisfies(best, rw, rh, limits) && Satisfies(scale, rw, rh, limits);
  }

  lemma FloorSideIs(length: U32, scale: real, n: nat)
    requires CutTo(length, scale, n) && UnderCeiling(length, scale)
    ensures FloorSide(length, scale) == n > 0
  {
  }

  lemma LargestFits(scale: real, upscale: bool, rw: U32, rh: U32, limits: Limits)
    requires Largest(scale, upscale, rw, rh, limits)
    ensures Satisfies(scale, rw, rh, limits)
  {
    var fits := Satisfies(scale, rw, rh, limits);
  }

  lemma MaxSidesAre(upscale: bool, rw: U32, rh: U32, limits: Limits, sqrt: real -> real, scale: real, w: nat, h: nat)
    requires rw > 0 && rh > 0 && AreaRoot(sqrt, rw, rh, limits) && Largest(scale, upscale, rw, rh, limits)
    requires CutTo(rw, scale, w) && CutTo(rh, scale, h)
    ensures MaxSides(upscale, rw, rh, limits, sqrt) == (w, h) && w > 0 && h > 0
  {
    LargestIs(scale, upscale, rw, rh, limits, sqrt);
    LargestFits(scale, upscale, rw, rh, limits);
    ScaledUnderCeiling(scale, rw, rh, limits);
    FloorSideIs(rw, scale, w);
    FloorSideIs(rh, scale, h);
  }

  // A `max` request is given its region at the largest scale, cut down to whole
  // pixels, or refused by the limits.
  lemma MaxServedAsAsked(request: ImageRequest, fullW: U32, fullH: U32, limits: Limits, sqrt: real -> real,
                         scale: real, w: nat, h: nat)
    requires Legal(request) && fullW > 0 && fullH > 0 && request.size.kind.Max?
    requires ResolveRegion(request.region, fullW, fullH).Success?
    requires var crop := ResolveRegion(request.region, fullW, fullH).value;
      && AreaRoot(sqrt, crop.width, crop.height, limits)
      && Largest(scale, request.size.upscale, crop.width, crop.height, limits)
      && CutTo(crop.width, scale, w) && CutTo(crop.height, scale, h)
    ensures GivenOrOverLimits(request, fullW, fullH, limits, sqrt, w, h)
  {
    var crop := ResolveRegion(request.region, fullW, fullH).value;
    MaxSidesAre(request.size.upscale, crop.width, crop.height, limits, sqrt, scale, w, h);
    MaxGiven(request, fullW, fullH, limits, sqrt, w, h);
  }

  predicate GivenOrOverLimits(request: ImageRequest, fullW: U32, fullH: U32, limits: Limits, sqrt: real -> real,
                              w: nat, h: nat)
    requires Legal(request) && fullW > 0 && fullH > 0
    requires ResolveRegion(request.region, fullW, fullH).Success?
  {
    var r := Evaluate(request, fullW, fullH, limits, sqrt);
    if !WithinLimits(w, h, limits) then r == Failure(ExceedsLimits)
    else
      && r.Success? && r.value.crop == ResolveRegion(request.region, fullW, fullH).value
      && (r.value.outW, r.value.outH) == (w, h)
  }

  lemma MaxGiven(request: ImageRequest, fullW: U32, fullH: U32, limits: Limits, sqrt: real -> real, w: nat, h: nat)
    requires Legal(request) && fullW > 0 && fullH > 0 && request.size.kind.Max?
    requires ResolveRegion(request.region, fullW, fullH).Success?
    requires var crop := ResolveRegion(request.region, fullW, fullH).value;
      MaxSides(request.size.upscale, crop.width, crop.height, limits, sqrt) == (w, h) && w > 0 && h > 0
    ensures GivenOrOverLimits(request, fullW, fullH, limits, sqrt, w, h)
  {
    var crop := ResolveRegion(request.region, fullW, fullH).value;
    assert request.size == Size(request.size.upscale, Max);
    MaxResolves(request.size.upscale, crop.width, crop.height, limits, sqrt);
  }

  // Such a scale there is.
  lemma LargestExists(upscale: bool, rw: U32, rh: U32, limits: Limits, sqrt: real -> real)
    requires rw > 0 && rh > 0 && AreaRoot(sqrt, rw, rh, limits)
    ensures Largest(MaxScale(upscale, rw, rh, limits, sqrt), upscale, rw, rh, limits)
  {
    ScaleInRange(upscale, rw, rh, limits, sqrt);
    forall t: real | t >= 0.0
      ensures t <= MaxScale(upscale, rw, rh, limits, sqrt)
         <==> Satisfies(t, rw, rh, limits) && (upscale || t <= 1.0)
    {
      FitScaleIsOptimal(rw, rh, limits, sqrt, t);
    }
  }
}
