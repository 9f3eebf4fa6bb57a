// The canonical path of a plan is a fixed point: read back and evaluated on
// the same image and limits, it gives the identical plan.
module Canonical {
  import opened Wrappers
  import opened Decimals
  import opened Grammar
  import opened Eval

  lemma RemainderLastDigit(u: nat, k: nat)
    requires k > 0
    ensures (u % (10 * k)) % 10 == u % 10
  {
    var q, r := u / (10 * k), u % (10 * k);
    assert u == 10 * (k * q) + r;
  }

  lemma RatioBelow(r: nat, m: nat, p: nat)
    requires p > 0 && r < m * p
    ensures r as real / p as real < m as real
  {
    assert r as real < m as real * p as real;
  }

  lemma FoldKeepsNormal(d: Decimal)
    requires d.Normal()
    ensures d.Mod(360).Normal()
  {
    if d.scale > 0 {
      ModPositive(360, d.scale - 1);
      var k := 360 * Pow10(d.scale - 1);
      assert 360 * Pow10(d.scale) == 10 * k;
      RemainderLastDigit(d.units, k);
    }
  }

  // Degrees folded into one turn: still a legal rotation, and folded already.
  lemma TurnFolded(d: Decimal)
    requires d.Normal()
    ensures d.Mod(360).Normal() && d.Mod(360).Value() < 360.0
    ensures d.Mod(360).Mod(360) == d.Mod(360)
  {
    FoldKeepsNormal(d);
    ModPositive(360, d.scale);
    var m := 360 * Pow10(d.scale);
    assert d.Mod(360) == Decimal(d.units % m, d.scale);
    RatioBelow(d.units % m, 360, Pow10(d.scale));
    RemainderTwice(d.units, m);
  }

  lemma RemainderTwice(u: nat, m: nat)
    requires m > 0
    ensures (u % m) % m == u % m
  {
  }

  // Folding takes whole turns off and nothing else.
  lemma WholeTurnsOff(d: Decimal) returns (turns: nat)
    ensures d.Value() == d.Mod(360).Value() + 360.0 * turns as real
  {
    ModPositive(360, d.scale);
    var m := 360 * Pow10(d.scale);
    turns := Division(d.units, m);
    QuotientOver(d.units, turns, d.units % m, m, Pow10(d.scale));
  }

  lemma Division(u: nat, m: nat) returns (q: nat)
    requires m > 0
    ensures u == q * m + u % m
  {
    q := u / m;
  }

  lemma QuotientOver(u: nat, q: nat, r: nat, m: nat, p: nat)
    requires p > 0 && m == 360 * p && u == q * m + r
    ensures u as real / p as real == r as real / p as real + 360.0 * q as real
  {
    assert q * m == 360 * (q * p);
    assert (q * p) as real == q as real * p as real;
    SumOver(r as real, 360.0 * q as real, p as real);
  }

  lemma SumOver(r: real, a: real, p: real)
    requires p > 0.0
    ensures (r + a * p) / p == r / p + a
  {
    var x := r / p;
    assert r + a * p == (x + a) * p;
  }

  // An angle the grammar admits is kept, but for the full turn.
  lemma AngleKept(d: Decimal)
    requires d.Normal() && d.Value() <= 360.0
    ensures d.Mod(360) == if d.Value() < 360.0 then d else Decimal(0, 0)
  {
    var turns := WholeTurnsOff(d);
    TurnFolded(d);
    if d.Value() < 360.0 {
      NormalUnique(d.Mod(360), d);
    } else {
      NormalUnique(d, Decimal(360, 0));
    }
  }

  // ----- the size parameter -----

  function SizeOf(plan: Plan): Size {
    if plan.sizeWasMax then Size(plan.upscales, Max)
    else Size(plan.upscales, WidthHeight(plan.outW, plan.outH))
  }

  lemma CanonicalSizeParses(plan: Plan)
    requires plan.outW > 0 && plan.outH > 0
    ensures LegalSize(SizeOf(plan)) && ParseSize(plan.CanonicalSize()) == Success(SizeOf(plan))
    ensures '/' !in plan.CanonicalSize()
  {
    assert plan.CanonicalSize() == PrintSize(SizeOf(plan));
    SizeRoundTrip(SizeOf(plan));
    SizeNoSlash(SizeOf(plan));
  }

  // A `^max` that grows neither side is what plain `max` gives.
  lemma FlaggedMaxThatDoesNotGrow(rw: U32, rh: U32, limits: Limits, sqrt: real -> real)
    requires rw > 0 && rh > 0
    requires var s := RequestedSize(Size(true, Max), rw, rh, limits, sqrt).value; s.0 <= rw && s.1 <= rh
    ensures RequestedSize(Size(false, Max), rw, rh, limits, sqrt)
         == RequestedSize(Size(true, Max), rw, rh, limits, sqrt)
  {
    var fit := LimitFitScale(rw, rh, limits, sqrt);
    if fit > 1.0 {
      FloorGrownSide(rw, fit);
      FloorGrownSide(rh, fit);
    }
  }

  lemma CanonicalSizeResolves(size: Size, plan: Plan, limits: Limits, sqrt: real -> real)
    requires LegalSize(size) && plan.crop.width > 0 && plan.crop.height > 0
    requires plan.outW > 0 && plan.outH > 0 && plan.sizeWasMax == size.kind.Max?
    requires ResolveSize(size, plan.crop.width, plan.crop.height, limits, sqrt)
          == Success((plan.outW, plan.outH, plan.upscales))
    ensures ResolveSize(SizeOf(plan), plan.crop.width, plan.crop.height, limits, sqrt)
         == Success((plan.outW, plan.outH, plan.upscales))
  {
    var rw, rh := plan.crop.width, plan.crop.height;
    if !size.upscale {
      NeverEnlargesUnflagged(size, rw, rh, limits, sqrt);
    }
    if plan.sizeWasMax && size.upscale && !plan.upscales {
      assert size == Size(true, Max);
      FlaggedMaxThatDoesNotGrow(rw, rh, limits, sqrt);
      NeverEnlargesUnflagged(Size(false, Max), rw, rh, limits, sqrt);
    }
  }

  // ----- the whole plan -----

  // The request a plan's canonical path spells.
  function RequestOf(plan: Plan): ImageRequest {
    ImageRequest(plan.CanonicalRegion(), SizeOf(plan), Rotation(plan.mirror, plan.degrees), plan.quality,
                 plan.format)
  }

  lemma PlanIsPrintable(request: ImageRequest, fullW: U32, fullH: U32, limits: Limits, sqrt: real -> real)
    requires Legal(request) && fullW > 0 && fullH > 0
    requires Evaluate(request, fullW, fullH, limits, sqrt).Success?
    ensures var plan := Evaluate(request, fullW, fullH, limits, sqrt).value;
      Legal(RequestOf(plan)) && ParseRequest(plan.CanonicalPath()) == Success(RequestOf(plan))
  {
    var plan := Evaluate(request, fullW, fullH, limits, sqrt).value;
    TurnFolded(request.rotation.degrees);
    CanonicalSizeParses(plan);
    JoinedParses(plan.CanonicalRegion(), plan.CanonicalSize(), SizeOf(plan),
                 Rotation(plan.mirror, plan.degrees), plan.quality, plan.format);
  }

  lemma CanonicalRegionResolves(plan: Plan)
    requires plan.crop.Inside(plan.fullW, plan.fullH)
    ensures LegalRegion(plan.CanonicalRegion())
    ensures ResolveRegion(plan.CanonicalRegion(), plan.fullW, plan.fullH) == Success(plan.crop)
  {
  }

  // What a plan's own request evaluates to, given that its size resolves.
  lemma OwnRequestEvaluates(plan: Plan, limits: Limits, sqrt: real -> real)
    requires plan.crop.Inside(plan.fullW, plan.fullH) && Legal(RequestOf(plan))
    requires plan.outW > 0 && plan.outH > 0 && WithinLimits(plan.outW, plan.outH, limits)
    requires plan.degrees.Mod(360) == plan.degrees
    requires ResolveSize(SizeOf(plan), plan.crop.width, plan.crop.height, limits, sqrt)
          == Success((plan.outW, plan.outH, plan.upscales))
    ensures Evaluate(RequestOf(plan), plan.fullW, plan.fullH, limits, sqrt) == Success(plan)
  {
    CanonicalRegionResolves(plan);
  }

  lemma PlanKeepsSize(request: ImageRequest, fullW: U32, fullH: U32, limits: Limits, sqrt: real -> real)
    requires Legal(request) && fullW > 0 && fullH > 0
    requires Evaluate(request, fullW, fullH, limits, sqrt).Success?
    ensures var plan := Evaluate(request, fullW, fullH, limits, sqrt).value;
      && ResolveSize(request.size, plan.crop.width, plan.crop.height, limits, sqrt)
         == Success((plan.outW, plan.outH, plan.upscales))
      && plan.sizeWasMax == request.size.kind.Max?
      && plan.degrees == request.rotation.degrees.Mod(360)
  {
  }

  // Every plan is recovered, flags and all, from its own canonical path.
  lemma CanonicalFixedPoint(request: ImageRequest, fullW: U32, fullH: U32, limits: Limits, sqrt: real -> real)
    requires Legal(request) && fullW > 0 && fullH > 0
    requires Evaluate(request, fullW, fullH, limits, sqrt).Success?
    ensures var plan := Evaluate(request, fullW, fullH, limits, sqrt).value;
      var again := ParseRequest(plan.CanonicalPath());
      again.Success? && Evaluate(again.value, fullW, fullH, limits, sqrt) == Success(plan)
  {
    var plan := Evaluate(request, fullW, fullH, limits, sqrt).value;
    PlanIsPrintable(request, fullW, fullH, limits, sqrt);
    PlanKeepsSize(request, fullW, fullH, limits, sqrt);
    CanonicalSizeResolves(request.size, plan, limits, sqrt);
    TurnFolded(request.rotation.degrees);
    OwnRequestEvaluates(plan, limits, sqrt);
  }

  // So the canonical text of version 3.0 determines the plan.
  lemma CanonicalTextDeterminesPlan(a: ImageRequest, b: ImageRequest, fullW: U32, fullH: U32, limits: Limits,
                                    sqrt: real -> real)
    requires Legal(a) && Legal(b) && fullW > 0 && fullH > 0
    requires var (p, q) := (Evaluate(a, fullW, fullH, limits, sqrt), Evaluate(b, fullW, fullH, limits, sqrt));
      p.Success? && q.Success? && p.value.CanonicalPath() == q.value.CanonicalPath()
    ensures Evaluate(a, fullW, fullH, limits, sqrt) == Evaluate(b, fullW, fullH, limits, sqrt)
  {
    CanonicalFixedPoint(a, fullW, fullH, limits, sqrt);
    CanonicalFixedPoint(b, fullW, fullH, limits, sqrt);
  }
}
