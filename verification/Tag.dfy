// Entity tags: what they are computed from, and when two responses that share
// one are the same output.
module Tags {
  import opened Wrappers
  import opened Text
  import opened Decimals
  import opened Grammar
  import opened Eval
  import opened Canonical
  import V2
  import opened Route

  // A parsed request in the spelling of its API version.
  datatype Spelled = InV3(request: ImageRequest) | InV2(parsed: V2.Request) {
    function AsV3(): ImageRequest {
      if InV3? then request else parsed.asV3
    }

    function SizeText(plan: Plan): string {
      if InV3? then plan.CanonicalSize() else V2.CanonicalSizeV2(plan, parsed)
    }

    // The canonical path the response is linked and tagged by.
    function CanonicalText(plan: Plan): string {
      if InV3? then plan.CanonicalPath() else V2.CanonicalPathV2(plan, parsed)
    }

    // Whether that path reads back as the same output.
    predicate ReadsBackAlike(plan: Plan)
      requires plan.crop.width > 0
    {
      InV3? || V2.RereadsAlike(plan, parsed)
    }
  }

  // Everything the tag hashes but the binary's own version; the hash itself is
  // taken to tell different inputs apart.
  datatype Tag = Tag(identifier: string, sourceVersion: (nat, nat), text: string)

  function ParseAs(version: Version, rest: string): (r: Result<Spelled, ParseError>)
    ensures r.Success? ==> Legal(r.value.AsV3()) && (r.value.InV3? <==> version.ApiV3?)
  {
    match version
    case ApiV3 => (match ParseRequest(rest)
                   case Success(request) => Success(InV3(request))
                   case Failure(e) => Failure(e))
    case ApiV2 => (match V2.ParseRequestV2(rest)
                   case Success(parsed) => Success(InV2(parsed))
                   case Failure(e) => Failure(e))
  }

  // What parsing and evaluating leave in a request and its plan.
  ghost predicate Stands(s: Spelled, plan: Plan, limits: Limits, sqrt: real -> real) {
    && Legal(s.AsV3()) && plan.crop.Inside(plan.fullW, plan.fullH) && plan.outW > 0 && plan.outH > 0
    && LegalRotation(Rotation(plan.mirror, plan.degrees)) && plan.sizeWasMax == s.AsV3().size.kind.Max?
    && ResolveSize(s.AsV3().size, plan.crop.width, plan.crop.height, limits, sqrt)
       == Success((plan.outW, plan.outH, plan.upscales))
    && (s.InV2? ==>
          && s.parsed.asV3.size.upscale == !s.parsed.wasFull && (s.parsed.wasFull ==> s.parsed.asV3.size.kind.Max?)
          && s.parsed.aspectPreserved == !s.parsed.asV3.size.kind.WidthHeight?)
  }

  lemma EvaluatedStands(version: Version, rest: string, fullW: U32, fullH: U32, limits: Limits, sqrt: real -> real)
    requires ParseAs(version, rest).Success? && fullW > 0 && fullH > 0
    requires Evaluate(ParseAs(version, rest).value.AsV3(), fullW, fullH, limits, sqrt).Success?
    ensures var s := ParseAs(version, rest).value;
      Stands(s, Evaluate(s.AsV3(), fullW, fullH, limits, sqrt).value, limits, sqrt)
  {
    var s := ParseAs(version, rest).value;
    PlanKeepsSize(s.AsV3(), fullW, fullH, limits, sqrt);
    TurnFolded(s.AsV3().rotation.degrees);
    if s.InV2? {
      V2.ParsedFlags(rest);
    }
  }

  // ----- the forms a canonical size takes -----

  datatype SizeForm = Largest(name: string) | Wide(w: U32) | Both(up: bool, w: U32, h: U32)

  function FormOf(s: Spelled, plan: Plan): SizeForm {
    if s.InV3? && plan.sizeWasMax then Largest(if plan.upscales then "^max" else "max")
    else if s.InV3? then Both(plan.upscales, plan.outW, plan.outH)
    else if s.parsed.wasFull && plan.IsFullRegion() && !plan.upscales then Largest("full")
    else if s.parsed.aspectPreserved then Wide(plan.outW)
    else Both(false, plan.outW, plan.outH)
  }

  function Spell(form: SizeForm): string {
    match form
    case Largest(name) => name
    case Wide(w) => FromNat(w) + [','] + ""
    case Both(up, w, h) => (if up then ['^'] else "") + (FromNat(w) + [','] + FromNat(h))
  }

  predicate Proper(form: SizeForm) {
    form.Largest? ==> form.name == "max" || form.name == "^max" || form.name == "full"
  }

  lemma FormSpells(s: Spelled, plan: Plan)
    ensures Proper(FormOf(s, plan)) && s.SizeText(plan) == Spell(FormOf(s, plan))
  {
  }

  lemma NumbersTold(w: U32, x: string, u: U32, y: string)
    requires FromNat(w) + [','] + x == FromNat(u) + [','] + y
    ensures w == u && x == y
  {
    SplitOnceAt(FromNat(w), x, ',');
    SplitOnceAt(FromNat(u), y, ',');
    ToNatFromNat(w);
    ToNatFromNat(u);
  }

  // A numeric form's text without its flag.
  function Numerals(form: SizeForm): string
    requires !form.Largest?
  {
    FromNat(form.w) + [','] + if form.Wide? then "" else FromNat(form.h)
  }

  predicate Flagged(form: SizeForm) {
    form.Both? && form.up
  }

  // How a form's text begins.
  lemma FormBegins(form: SizeForm)
    requires Proper(form)
    ensures var t := Spell(form);
      && |t| >= 2
      && (form.Largest? <==> !IsDigit(t[0]) && (t[0] == '^' ==> !IsDigit(t[1])))
      && (Flagged(form) <==> t[0] == '^' && IsDigit(t[1]))
      && (!form.Largest? ==> Numerals(form) == if Flagged(form) then t[1..] else t)
  {
    if !form.Largest? {
      assert IsDigit(FromNat(form.w)[0]);
    }
  }

  // A canonical size text has one form.
  lemma FormTold(a: SizeForm, b: SizeForm)
    requires Proper(a) && Proper(b) && Spell(a) == Spell(b)
    ensures a == b
  {
    FormBegins(a);
    FormBegins(b);
    if !a.Largest? {
      NumbersTold(a.w, if a.Wide? then "" else FromNat(a.h), b.w, if b.Wide? then "" else FromNat(b.h));
      if a.Both? && b.Both? {
        ToNatFromNat(a.h);
        ToNatFromNat(b.h);
      }
    }
  }

  // ----- what one text says of two plans -----

  lemma SizeTextNoSlash(s: Spelled, plan: Plan)
    requires plan.outW > 0 && plan.outH > 0
    ensures '/' !in s.SizeText(plan)
  {
    if s.InV3? {
      CanonicalSizeParses(plan);
    } else {
      V2.CanonicalSizeV2Parses(plan, s.parsed);
    }
  }

  // Everything but the size is told by the text, and so is the form of the size.
  lemma TextTold(a: Spelled, p: Plan, b: Spelled, q: Plan, limits: Limits, sqrt: real -> real)
    requires Stands(a, p, limits, sqrt) && Stands(b, q, limits, sqrt) && (p.fullW, p.fullH) == (q.fullW, q.fullH)
    requires a.CanonicalText(p) == b.CanonicalText(q)
    ensures p.crop == q.crop && (p.mirror, p.degrees) == (q.mirror, q.degrees)
    ensures (p.quality, p.format) == (q.quality, q.format) && FormOf(a, p) == FormOf(b, q)
  {
    SizeTextNoSlash(a, p);
    SizeTextNoSlash(b, q);
    PartsTold(a.SizeText(p), p, b.SizeText(q), q);
    FormSpells(a, p);
    FormSpells(b, q);
    FormTold(FormOf(a, p), FormOf(b, q));
  }

  lemma PartsTold(size: string, p: Plan, other: string, q: Plan)
    requires p.crop.Inside(p.fullW, p.fullH) && q.crop.Inside(q.fullW, q.fullH) && (p.fullW, p.fullH) == (q.fullW, q.fullH)
    requires LegalRotation(Rotation(p.mirror, p.degrees)) && LegalRotation(Rotation(q.mirror, q.degrees))
    requires '/' !in size && '/' !in other
    requires JoinPath(PrintRegion(p.CanonicalRegion()), size, PrintRotation(Rotation(p.mirror, p.degrees)), p.quality,
                      p.format)
          == JoinPath(PrintRegion(q.CanonicalRegion()), other, PrintRotation(Rotation(q.mirror, q.degrees)), q.quality,
                      q.format)
    ensures size == other && p.crop == q.crop && (p.mirror, p.degrees) == (q.mirror, q.degrees)
    ensures (p.quality, p.format) == (q.quality, q.format)
  {
    var r, t := p.CanonicalRegion(), Rotation(p.mirror, p.degrees);
    var u, w := q.CanonicalRegion(), Rotation(q.mirror, q.degrees);
    RegionNoSlash(r);
    RegionNoSlash(u);
    RotationNoSlash(t);
    RotationNoSlash(w);
    JoinInjective(PrintRegion(r), size, PrintRotation(t), p.quality, p.format,
                  PrintRegion(u), other, PrintRotation(w), q.quality, q.format);
    CanonicalRegionResolves(p);
    CanonicalRegionResolves(q);
    RegionRoundTrip(r);
    RegionRoundTrip(u);
    RotationRoundTrip(t);
    RotationRoundTrip(w);
  }

  // A size spelled by name was asked for by name, and one crop has one of it.
  lemma NamedSizesAgree(a: Spelled, p: Plan, b: Spelled, q: Plan, limits: Limits, sqrt: real -> real)
    requires Stands(a, p, limits, sqrt) && Stands(b, q, limits, sqrt) && p.crop == q.crop
    requires FormOf(a, p) == FormOf(b, q) && FormOf(a, p).Largest?
    ensures (p.outW, p.outH) == (q.outW, q.outH)
  {
    NamedSizeResolves(a, p, limits, sqrt);
    NamedSizeResolves(b, q, limits, sqrt);
  }

  lemma NamedSizeResolves(s: Spelled, plan: Plan, limits: Limits, sqrt: real -> real)
    requires Stands(s, plan, limits, sqrt) && FormOf(s, plan).Largest?
    ensures ResolveSize(Size(FormOf(s, plan).name == "^max", Max), plan.crop.width, plan.crop.height, limits, sqrt)
         == Success((plan.outW, plan.outH, plan.upscales))
  {
    if s.InV3? {
      CanonicalSizeResolves(s.AsV3().size, plan, limits, sqrt);
    }
  }

  // ----- one text, one output? -----

  // Two plans with one text differ at most in their heights, and then only where
  // both sizes are spelled as a width.
  lemma OneTextPlans(a: Spelled, p: Plan, b: Spelled, q: Plan, limits: Limits, sqrt: real -> real)
    requires Stands(a, p, limits, sqrt) && Stands(b, q, limits, sqrt) && (p.fullW, p.fullH) == (q.fullW, q.fullH)
    requires a.CanonicalText(p) == b.CanonicalText(q)
    ensures FormOf(a, p) == FormOf(b, q) && V2.SameOutput(p, q.(outH := p.outH))
    ensures !FormOf(a, p).Wide? ==> p.outH == q.outH
  {
    TextTold(a, p, b, q, limits, sqrt);
    if FormOf(a, p).Largest? {
      NamedSizesAgree(a, p, b, q, limits, sqrt);
    }
  }

  lemma ReadsBackUnlessWide(s: Spelled, plan: Plan, limits: Limits, sqrt: real -> real)
    requires Stands(s, plan, limits, sqrt)
    ensures s.ReadsBackAlike(plan) <==> (FormOf(s, plan).Wide? ==> plan.outH == V2.HeightFor(plan))
    ensures s.InV3? ==> !FormOf(s, plan).Wide?
  {
  }

  // Two requests of either version that share a canonical text, and so a tag:
  // the same output if each reads back alike, different outputs if just one does,
  // and if neither does the same exactly when the heights are. Where one of them
  // is of version 3.0, always the same.
  lemma OneTextOutputs(version: Version, rest: string, other: Version, tail: string, fullW: U32, fullH: U32,
                       limits: Limits, sqrt: real -> real)
    requires ParseAs(version, rest).Success? && ParseAs(other, tail).Success? && fullW > 0 && fullH > 0
    requires var (a, b) := (ParseAs(version, rest).value, ParseAs(other, tail).value);
      var (p, q) := (Evaluate(a.AsV3(), fullW, fullH, limits, sqrt), Evaluate(b.AsV3(), fullW, fullH, limits, sqrt));
      p.Success? && q.Success? && a.CanonicalText(p.value) == b.CanonicalText(q.value)
    ensures var (a, b) := (ParseAs(version, rest).value, ParseAs(other, tail).value);
      var (p, q) := (Evaluate(a.AsV3(), fullW, fullH, limits, sqrt).value,
                     Evaluate(b.AsV3(), fullW, fullH, limits, sqrt).value);
      && (a.ReadsBackAlike(p) && b.ReadsBackAlike(q) ==> V2.SameOutput(p, q))
      && (a.ReadsBackAlike(p) != b.ReadsBackAlike(q) ==> !V2.SameOutput(p, q))
      && (V2.SameOutput(p, q) <==> p.outH == q.outH)
      && (version.ApiV3? || other.ApiV3? ==> V2.SameOutput(p, q))
  {
    var a, b := ParseAs(version, rest).value, ParseAs(other, tail).value;
    EvaluatedStands(version, rest, fullW, fullH, limits, sqrt);
    EvaluatedStands(other, tail, fullW, fullH, limits, sqrt);
    OneTextStanding(a, Evaluate(a.AsV3(), fullW, fullH, limits, sqrt).value,
                    b, Evaluate(b.AsV3(), fullW, fullH, limits, sqrt).value, limits, sqrt);
  }

  lemma OneTextStanding(a: Spelled, p: Plan, b: Spelled, q: Plan, limits: Limits, sqrt: real -> real)
    requires Stands(a, p, limits, sqrt) && Stands(b, q, limits, sqrt) && (p.fullW, p.fullH) == (q.fullW, q.fullH)
    requires a.CanonicalText(p) == b.CanonicalText(q)
    ensures a.ReadsBackAlike(p) && b.ReadsBackAlike(q) ==> V2.SameOutput(p, q)
    ensures a.ReadsBackAlike(p) != b.ReadsBackAlike(q) ==> !V2.SameOutput(p, q)
    ensures V2.SameOutput(p, q) <==> p.outH == q.outH
    ensures a.InV3? || b.InV3? ==> V2.SameOutput(p, q)
  {
    OneTextPlans(a, p, b, q, limits, sqrt);
    ReadsBackUnlessWide(a, p, limits, sqrt);
    ReadsBackUnlessWide(b, q, limits, sqrt);
    assert V2.HeightFor(p) == V2.HeightFor(q);
  }

  // A tag can stand for two outputs: an image and two paths of version 2.1.
  lemma OneTagTwoOutputs(identifier: string, sourceVersion: (nat, nat), limits: Limits, sqrt: real -> real)
    requires limits.width >= 2 && limits.height >= 67 && limits.area >= 134
    ensures var (a, b) := (ParseAs(ApiV2, "full/,50/0/default.jpg"), ParseAs(ApiV2, "full/2,/0/default.jpg"));
      a.Success? && b.Success? &&
      var (p, q) := (Evaluate(a.value.AsV3(), 3, 100, limits, sqrt), Evaluate(b.value.AsV3(), 3, 100, limits, sqrt));
      && p.Success? && q.Success? && !V2.SameOutput(p.value, q.value)
      && Tag(identifier, sourceVersion, a.value.CanonicalText(p.value))
         == Tag(identifier, sourceVersion, b.value.CanonicalText(q.value))
  {
    V2.TextsCollide(limits, sqrt);
  }
}
