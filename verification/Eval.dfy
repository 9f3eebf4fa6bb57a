// Request evaluation: a legal request against an image and the deployment
// limits becomes a plan or an error, and the plan prints its canonical path.
// Arithmetic is over exact reals; `sqrt` stands for the float square root.
module Eval {
  import opened Wrappers
  import opened Decimals
  import opened Grammar
  import Arithmetic

  datatype Limits = Limits(width: U32, height: U32, area: nat)

  datatype CropRect = CropRect(x: U32, y: U32, width: U32, height: U32) {
    predicate Holds(px: nat, py: nat) {
      x <= px < x + width && y <= py < y + height
    }

    predicate Inside(fullW: nat, fullH: nat) {
      0 < width && 0 < height && x + width <= fullW && y + height <= fullH
    }
  }

  datatype Plan = Plan(
    crop: CropRect, outW: U32, outH: U32, mirror: bool, degrees: Decimal, quality: Quality,
    format: Format, upscales: bool, sizeWasMax: bool, fullW: U32, fullH: U32)
  {
    predicate IsFullRegion() {
      crop == CropRect(0, 0, fullW, fullH)
    }

    function CanonicalRegion(): Region {
      if IsFullRegion() then Full else Pixels(crop.x, crop.y, crop.width, crop.height)
    }

    function CanonicalSize(): string {
      if sizeWasMax then (if upscales then "^max" else "max")
      else (if upscales then "^" else "") + (FromNat(outW) + "," + FromNat(outH))
    }

    function CanonicalPath(): string {
      JoinPath(PrintRegion(CanonicalRegion()), CanonicalSize(), PrintRotation(Rotation(mirror, degrees)),
               quality, format)
    }
  }

  datatype EvalError = RegionOutOfBounds | UpscaleWithoutFlag | BelowOnePixel | ExceedsLimits

  // f64 to u32, saturating at the type's ceiling
  function Saturate(n: nat): U32 {
    if n > U32_MAX then U32_MAX else n
  }

  function RoundU32(x: real): U32
    requires x >= 0.0
  {
    Saturate((x + 0.5).Floor)
  }

  function FloorU32(x: real): U32
    requires x >= 0.0
  {
    Saturate(x.Floor)
  }

  function MinReal(a: real, b: real): real {
    if a <= b then a else b
  }

  function MaxReal(a: real, b: real): real {
    if a >= b then a else b
  }

  function ShareOf(percent: Decimal, whole: nat): (r: real)
    ensures r >= 0.0
  {
    percent.Value() / 100.0 * whole as real
  }

  // Every region that resolves is a non-empty rectangle of the image.
  function ResolveRegion(region: Region, fullW: U32, fullH: U32): (r: Result<CropRect, EvalError>)
    requires LegalRegion(region) && fullW > 0 && fullH > 0
    ensures r.Success? ==> r.value.Inside(fullW, fullH)
    ensures r.Failure? ==> r.error == RegionOutOfBounds && (region.Pixels? || region.Percent?)
  {
    match region
    case Full => Success(CropRect(0, 0, fullW, fullH))
    case Square =>
      var side := Arithmetic.Min(fullW, fullH);
      Success(CropRect((fullW - side) / 2, (fullH - side) / 2, side, side))
    case Pixels(x, y, w, h) =>
      if x >= fullW || y >= fullH then Failure(RegionOutOfBounds)
      else Success(CropRect(x, y, Arithmetic.Min(w, fullW - x), Arithmetic.Min(h, fullH - y)))
    case Percent(x, y, w, h) =>
      var px := RoundU32(ShareOf(x, fullW));
      var py := RoundU32(ShareOf(y, fullH));
      if px >= fullW || py >= fullH then Failure(RegionOutOfBounds)
      else
        var pw := RoundU32(ShareOf(w, fullW));
        var ph := RoundU32(ShareOf(h, fullH));
        if pw == 0 || ph == 0 then Failure(RegionOutOfBounds)
        else Success(CropRect(px, py, Arithmetic.Min(pw, fullW - px), Arithmetic.Min(ph, fullH - py)))
  }

  // Output pixels the area limit grants per region pixel.
  function AreaShare(area: nat, rw: nat, rh: nat): (r: real)
    requires rw > 0 && rh > 0
    ensures r >= 0.0
  {
    Ratio(area, rw * rh)
  }

  // The largest scale that stays inside every limit.
  function LimitFitScale(rw: U32, rh: U32, limits: Limits, sqrt: real -> real): real
    requires rw > 0 && rh > 0
  {
    var byWidth := Ratio(limits.width, rw);
    var byHeight := Ratio(limits.height, rh);
    var byArea := sqrt(AreaShare(limits.area, rw, rh));
    MinReal(MinReal(byWidth, byHeight), byArea)
  }

  function MaxScale(upscale: bool, rw: U32, rh: U32, limits: Limits, sqrt: real -> real): real
    requires rw > 0 && rh > 0
  {
    var fit := LimitFitScale(rw, rh, limits, sqrt);
    if upscale then fit else MinReal(fit, 1.0)
  }

  // A length times a non-negative scale.
  function Times(length: nat, scale: real): (r: real)
    requires scale >= 0.0
    ensures r >= 0.0
  {
    length as real * scale
  }

  function Ratio(n: nat, d: nat): (r: real)
    requires d > 0
    ensures r >= 0.0
  {
    n as real / d as real
  }

  // Floored under the cap, but never below one pixel.
  function FloorSide(length: U32, scale: real): U32 {
    FloorU32(MaxReal(length as real * scale, 1.0))
  }

  // The size a request asks for, before the final clamp.
  function RequestedSize(size: Size, regionW: U32, regionH: U32, limits: Limits, sqrt: real -> real)
    : Result<(U32, U32), EvalError>
    requires LegalSize(size) && regionW > 0 && regionH > 0
  {
    match size.kind
    case Max =>
      var scale := MaxScale(size.upscale, regionW, regionH, limits, sqrt);
      Success((FloorSide(regionW, scale), FloorSide(regionH, scale)))
    case Width(w) =>
      if !size.upscale && w > regionW then Failure(UpscaleWithoutFlag)
      else Success((w, RoundU32(Times(regionH, Ratio(w, regionW)))))
    case Height(h) =>
      if !size.upscale && h > regionH then Failure(UpscaleWithoutFlag)
      else Success((RoundU32(Times(regionW, Ratio(h, regionH))), h))
    case Scaled(n) =>
      var scale := n.Value() / 100.0;
      Success((RoundU32(Times(regionW, scale)), RoundU32(Times(regionH, scale))))
    case WidthHeight(w, h) =>
      if !size.upscale && (w > regionW || h > regionH) then Failure(UpscaleWithoutFlag)
      else Success((w, h))
    case Confined(w, h) =>
      var fit := MinReal(Ratio(w, regionW), Ratio(h, regionH));
      if !size.upscale && fit > 1.0 then Failure(UpscaleWithoutFlag)
      else Success((RoundU32(Times(regionW, fit)), RoundU32(Times(regionH, fit))))
  }

  function ResolveSize(size: Size, regionW: U32, regionH: U32, limits: Limits, sqrt: real -> real)
    : Result<(U32, U32, bool), EvalError>
    requires LegalSize(size) && regionW > 0 && regionH > 0
  {
    match RequestedSize(size, regionW, regionH, limits, sqrt)
    case Failure(e) => Failure(e)
    case Success((w, h)) =>
      var upscales := w > regionW || h > regionH;
      if upscales && !size.upscale then Success((Arithmetic.Min(w, regionW), Arithmetic.Min(h, regionH), false))
      else Success((w, h, upscales))
  }

  predicate WithinLimits(w: nat, h: nat, limits: Limits) {
    w <= limits.width && h <= limits.height && w * h <= limits.area
  }

  function Evaluate(request: ImageRequest, fullW: U32, fullH: U32, limits: Limits, sqrt: real -> real)
    : (r: Result<Plan, EvalError>)
    requires Legal(request) && fullW > 0 && fullH > 0
    ensures r.Success? ==>
      && r.value.crop.Inside(fullW, fullH)
      && 0 < r.value.outW && 0 < r.value.outH && WithinLimits(r.value.outW, r.value.outH, limits)
      && (r.value.fullW, r.value.fullH) == (fullW, fullH)
      && (r.value.mirror, r.value.quality, r.value.format) == (request.rotation.mirror, request.quality, request.format)
      && (r.value.upscales <==> r.value.outW > r.value.crop.width || r.value.outH > r.value.crop.height)
      && (r.value.upscales ==> request.size.upscale)
  {
    match ResolveRegion(request.region, fullW, fullH)
    case Failure(e) => Failure(e)
    case Success(crop) =>
      match ResolveSize(request.size, crop.width, crop.height, limits, sqrt)
      case Failure(e) => Failure(e)
      case Success((w, h, upscales)) =>
        if w == 0 || h == 0 then Failure(BelowOnePixel)
        else if !WithinLimits(w, h, limits) then Failure(ExceedsLimits)
        else Success(Plan(crop, w, h, request.rotation.mirror, request.rotation.degrees.Mod(360),
                          request.quality, request.format, upscales, request.size.kind.Max?, fullW, fullH))
  }

  // ----- what regions mean -----

  // A pixel region is the part of the rectangle that lies on the image; it is
  // refused exactly when no pixel does.
  lemma PixelRegionIsOverlap(x: U32, y: U32, w: U32, h: U32, fullW: U32, fullH: U32, px: nat, py: nat)
    requires w > 0 && h > 0 && fullW > 0 && fullH > 0
    ensures var r := ResolveRegion(Pixels(x, y, w, h), fullW, fullH);
      && (r.Failure? <==> x >= fullW || y >= fullH)
      && (r.Success? && r.value.Holds(px, py)
          <==> x <= px < x + w && y <= py < y + h && px < fullW && py < fullH)
  {
  }

  // The square is as large as the shorter side and centred, to within a pixel.
  lemma SquareIsCentred(fullW: U32, fullH: U32)
    requires fullW > 0 && fullH > 0
    ensures var r := ResolveRegion(Square, fullW, fullH);
      && r.Success? && r.value.width == r.value.height == Arithmetic.Min(fullW, fullH)
      && 0 <= (fullW - r.value.x - r.value.width) - r.value.x <= 1
      && 0 <= (fullH - r.value.y - r.value.height) - r.value.y <= 1
  {
  }

  // The whole number nearest x, halves going up, as far as the type goes.
  predicate RoundsTo(x: real, n: nat) {
    if x >= U32_MAX as real - 0.5 then n == U32_MAX else n as real - 0.5 <= x < n as real + 0.5
  }

  lemma RoundIs(x: real, n: nat)
    requires x >= 0.0
    ensures RoundU32(x) == n <==> RoundsTo(x, n)
  {
  }

  // A whole percent of a length, rounded.
  lemma ShareIs(percent: Decimal, whole: nat, n: nat)
    ensures RoundU32(ShareOf(percent, whole)) == n <==> RoundsTo(percent.Value() * whole as real / 100.0, n)
  {
    var v, x := percent.Value(), whole as real;
    assert v / 100.0 * x == v * x / 100.0;
    RoundIs(ShareOf(percent, whole), n);
  }

  // A percent region has its corner and its sides rounded to the nearest pixel, a
  // side cut off by the edge; it is refused exactly when the corner is off the
  // image or a side rounds to nothing.
  lemma PercentRegionIs(x: Decimal, y: Decimal, w: Decimal, h: Decimal, fullW: U32, fullH: U32,
                        px: nat, py: nat, pw: nat, ph: nat)
    requires LegalRegion(Percent(x, y, w, h)) && fullW > 0 && fullH > 0
    requires RoundsTo(x.Value() * fullW as real / 100.0, px) && RoundsTo(y.Value() * fullH as real / 100.0, py)
    requires RoundsTo(w.Value() * fullW as real / 100.0, pw) && RoundsTo(h.Value() * fullH as real / 100.0, ph)
    ensures ResolveRegion(Percent(x, y, w, h), fullW, fullH)
         == if px >= fullW || py >= fullH || pw == 0 || ph == 0 then Failure(RegionOutOfBounds)
            else Success(CropRect(px, py, Arithmetic.Min(pw, fullW - px), Arithmetic.Min(ph, fullH - py)))
  {
    ShareIs(x, fullW, px);
    ShareIs(y, fullH, py);
    ShareIs(w, fullW, pw);
    ShareIs(h, fullH, ph);
  }

  // A plan's canonical path says `full` for the whole image, and only then.
  lemma FullIsNamed(plan: Plan)
    ensures PrintRegion(plan.CanonicalRegion()) == "full" <==>
      plan.crop == CropRect(0, 0, plan.fullW, plan.fullH)
  {
    var text := PrintRegion(plan.CanonicalRegion());
    if !plan.IsFullRegion() {
      assert text[0] == FromNat(plan.crop.x)[0];
      assert IsDigit(text[0]) && !IsDigit("full"[0]);
    }
  }

  // ----- arithmetic of the roundings -----

  lemma TimesRatio(n: nat, d: nat)
    requires d > 0
    ensures Times(d, Ratio(n, d)) == n as real
  {
  }

  lemma TimesMonotone(length: nat, a: real, b: real)
    requires 0.0 <= a <= b
    ensures Times(length, a) <= Times(length, b)
  {
  }

  lemma RoundWhole(n: U32, x: real)
    requires 0.0 <= x
    ensures x == n as real ==> RoundU32(x) == n
    ensures x <= n as real ==> RoundU32(x) <= n
  {
  }

  lemma RatioAtMostOne(n: nat, d: nat)
    requires 0 < d && n <= d
    ensures Ratio(n, d) <= 1.0
  {
  }

  // A side scaled by at most one rounds to at most itself.
  lemma ShrunkSide(length: U32, scale: real)
    requires 0.0 <= scale <= 1.0
    ensures RoundU32(Times(length, scale)) <= length
  {
    TimesMonotone(length, scale, 1.0);
    RoundWhole(length, Times(length, scale));
  }

  lemma MulNonNegative(a: real, b: real)
    requires a >= 0.0 && b >= 0.0
    ensures a * b >= 0.0
  {
  }

  lemma MulPositive(a: real, b: real)
    requires a > 0.0 && b > 0.0
    ensures a * b > 0.0
  {
  }

  lemma FloorShrunkSide(length: U32, scale: real)
    requires 0 < length && scale <= 1.0
    ensures FloorSide(length, scale) <= length
  {
    MulNonNegative(length as real, 1.0 - scale);
  }

  lemma FloorGrownSide(length: U32, scale: real)
    requires 0 < length && scale >= 1.0
    ensures FloorSide(length, scale) >= length
    ensures FloorSide(length, 1.0) == length
  {
    MulNonNegative(length as real, scale - 1.0);
  }

  // ----- without `^` nothing grows -----

  lemma FloorBothSides(rw: U32, rh: U32, scale: real)
    requires rw > 0 && rh > 0
    ensures scale <= 1.0 ==> FloorSide(rw, scale) <= rw && FloorSide(rh, scale) <= rh
  {
    if scale <= 1.0 {
      FloorShrunkSide(rw, scale);
      FloorShrunkSide(rh, scale);
    }
  }

  lemma UnflaggedMax(rw: U32, rh: U32, limits: Limits, sqrt: real -> real)
    requires rw > 0 && rh > 0
    ensures var s := RequestedSize(Size(false, Max), rw, rh, limits, sqrt).value;
      s.0 <= rw && s.1 <= rh
  {
    FloorBothSides(rw, rh, MaxScale(false, rw, rh, limits, sqrt));
  }

  lemma UnflaggedRatio(size: Size, rw: U32, rh: U32, limits: Limits, sqrt: real -> real)
    requires LegalSize(size) && !size.upscale && rw > 0 && rh > 0
    requires size.kind.Width? || size.kind.Height? || size.kind.Confined?
    requires RequestedSize(size, rw, rh, limits, sqrt).Success?
    ensures var s := RequestedSize(size, rw, rh, limits, sqrt).value;
      s.0 <= rw && s.1 <= rh
  {
    match size.kind
    case Width(w) =>
      RatioAtMostOne(w, rw);
      ShrunkSide(rh, Ratio(w, rw));
    case Height(h) =>
      RatioAtMostOne(h, rh);
      ShrunkSide(rw, Ratio(h, rh));
    case Confined(w, h) =>
      var fit := MinReal(Ratio(w, rw), Ratio(h, rh));
      ShrunkSide(rw, fit);
      ShrunkSide(rh, fit);
  }

  lemma UnflaggedFits(size: Size, rw: U32, rh: U32, limits: Limits, sqrt: real -> real)
    requires LegalSize(size) && !size.upscale && rw > 0 && rh > 0
    requires RequestedSize(size, rw, rh, limits, sqrt).Success?
    ensures var s := RequestedSize(size, rw, rh, limits, sqrt).value;
      s.0 <= rw && s.1 <= rh
  {
    match size.kind
    case Max => UnflaggedMax(rw, rh, limits, sqrt);
    case Scaled(n) =>
      ShrunkSide(rw, n.Value() / 100.0);
      ShrunkSide(rh, n.Value() / 100.0);
    case WidthHeight(w, h) =>
    case _ => UnflaggedRatio(size, rw, rh, limits, sqrt);
  }

  // Without the flag no legal size exceeds its region, so the clamp that ends
  // size resolution never changes a result.
  lemma NeverEnlargesUnflagged(size: Size, rw: U32, rh: U32, limits: Limits, sqrt: real -> real)
    requires LegalSize(size) && !size.upscale && rw > 0 && rh > 0
    requires RequestedSize(size, rw, rh, limits, sqrt).Success?
    ensures var s := RequestedSize(size, rw, rh, limits, sqrt).value;
      && s.0 <= rw && s.1 <= rh
      && ResolveSize(size, rw, rh, limits, sqrt) == Success((s.0, s.1, false))
  {
    UnflaggedFits(size, rw, rh, limits, sqrt);
    var s := RequestedSize(size, rw, rh, limits, sqrt);
    assert s.Success? && s.value.0 <= rw && s.value.1 <= rh;
  }

  // `!w,h` fits the box and touches it on at least one side, flag or no flag.
  lemma ConfinedTouchesBox(w: U32, h: U32, upscale: bool, rw: U32, rh: U32, limits: Limits, sqrt: real -> real)
    requires w > 0 && h > 0 && rw > 0 && rh > 0
    requires RequestedSize(Size(upscale, Confined(w, h)), rw, rh, limits, sqrt).Success?
    ensures var s := RequestedSize(Size(upscale, Confined(w, h)), rw, rh, limits, sqrt).value;
      s.0 <= w && s.1 <= h && (s.0 == w || s.1 == h)
  {
    var byW, byH := Ratio(w, rw), Ratio(h, rh);
    TimesRatio(w, rw);
    TimesRatio(h, rh);
    if byW <= byH {
      TimesMonotone(rh, byW, byH);
      RoundWhole(w, Times(rw, byW));
      RoundWhole(h, Times(rh, byW));
    } else {
      TimesMonotone(rw, byH, byW);
      RoundWhole(w, Times(rw, byH));
      RoundWhole(h, Times(rh, byH));
    }
  }

  // The side that `w,` or `,h` leaves open is within half a pixel of the exact
  // aspect, unless it hit the type's ceiling; the given side is exact.
  lemma AspectKept(given: U32, upscale: bool, rw: U32, rh: U32, limits: Limits, sqrt: real -> real)
    requires given > 0 && rw > 0 && rh > 0
    ensures var wide := RequestedSize(Size(upscale, Width(given)), rw, rh, limits, sqrt);
      wide.Success? ==> wide.value.0 == given && WithinHalf(wide.value.1, rh, given, rw)
    ensures var high := RequestedSize(Size(upscale, Height(given)), rw, rh, limits, sqrt);
      high.Success? ==> high.value.1 == given && WithinHalf(high.value.0, rw, given, rh)
  {
    RoundedWithinHalf(given, rw, rh);
    RoundedWithinHalf(given, rh, rw);
  }

  predicate WithinHalf(open: U32, across: U32, given: U32, along: U32)
    requires along > 0
  {
    var exact := across as real * given as real / along as real;
    open < U32_MAX ==> -0.5 <= open as real - exact <= 0.5
  }

  lemma RoundedWithinHalf(given: U32, along: U32, across: U32)
    requires along > 0
    ensures WithinHalf(RoundU32(Times(across, Ratio(given, along))), across, given, along)
  {
    ScaleAssociates(across, given, along);
  }

  lemma ScaleAssociates(a: nat, n: nat, d: nat)
    requires d > 0
    ensures Times(a, Ratio(n, d)) == a as real * n as real / d as real
  {
    var q := n as real / d as real;
    assert a as real * n as real == (a as real * q) * d as real;
  }
}
