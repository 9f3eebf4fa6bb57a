// The Image API 2.1 layer: its size grammar mapped onto the same engine, and
// its own canonical spelling.
module V2 {
  import opened Wrappers
  import opened Text
  import opened Decimals
  import opened Grammar
  import opened Spelling
  import opened Eval
  import opened Canonical

  datatype Request = Request(asV3: ImageRequest, aspectPreserved: bool, wasFull: bool)

  // The size, whether it preserves the aspect, whether it is a full-size alias.
  function ParseSizeV2(input: string): (r: Result<(Size, bool, bool), ParseError>)
    ensures r.Success? ==> LegalSize(r.value.0)
    ensures r.Failure? ==> r.error == ParseError(InSize, input)
  {
    var err := Failure(ParseError(InSize, input));
    if Starts(input, '^') then err
    else if input == "full" || input == "max" then Success((Size(false, Max), true, true))
    else
      match ParseSize(if "pct:" <= input then "^pct:" + input[4..] else input)
      case Failure(_) => err
      case Success(parsed) => Success((Size(true, parsed.kind), !parsed.kind.WidthHeight?, false))
  }

  function ParseSegmentsV2(s: Segments): (r: Result<Request, ParseError>)
    ensures r.Success? ==> Legal(r.value.asV3)
  {
    match ParseSizeV2(s.size)
    case Failure(e) => Failure(e)
    case Success((size, aspect, full)) =>
      match ParseRegion(s.region)
      case Failure(e) => Failure(e)
      case Success(region) =>
        match ParseRotation(s.rotation)
        case Failure(e) => Failure(e)
        case Success(rotation) =>
          match ParseQuality(s.quality)
          case Failure(e) => Failure(e)
          case Success(quality) =>
            match ParseFormat(s.format)
            case Failure(e) => Failure(e)
            case Success(format) =>
              Success(Request(ImageRequest(region, size, rotation, quality, format), aspect, full))
  }

  function ParseRequestV2(path: string): (r: Result<Request, ParseError>)
    ensures r.Success? ==> Legal(r.value.asV3)
  {
    match CutPath(path)
    case Failure(e) => Failure(e)
    case Success(s) => ParseSegmentsV2(s)
  }

  function CanonicalSizeV2(plan: Plan, v2: Request): string {
    if v2.wasFull && plan.IsFullRegion() && !plan.upscales then "full"
    else if v2.aspectPreserved then FromNat(plan.outW) + "," + ""
    else FromNat(plan.outW) + "," + FromNat(plan.outH)
  }

  function CanonicalPathV2(plan: Plan, v2: Request): string {
    JoinPath(PrintRegion(plan.CanonicalRegion()), CanonicalSizeV2(plan, v2),
             PrintRotation(Rotation(plan.mirror, plan.degrees)), plan.quality, plan.format)
  }

  // ----- the size translation -----

  // Lifting the upscale restriction changes no form but `pct:`.
  lemma KindIgnoresFlag(rest: string)
    requires !("pct:" <= rest)
    ensures ParseSizeKind(rest, true) == ParseSizeKind(rest, false)
  {
  }

  lemma DoubleCaret(input: string)
    requires Starts(input, '^')
    ensures ParseSizeKind(input, true) == None
  {
    match SplitOnce(input, ',')
    case Some((w, h)) =>
      assert w != "" && w[0] == '^' && w[0] in w;
      assert !AllDigits(w);
    case None =>
  }

  // Apart from the two full-size aliases, a 2.1 size is accepted exactly when
  // the 3.0 grammar accepts it behind a `^`, and means the same size.
  lemma SizeTranslation(input: string)
    requires input != "full" && input != "max"
    ensures ParseSizeV2(input).Success? <==> ParseSize("^" + input).Success?
    ensures ParseSizeV2(input).Success? ==> ParseSizeV2(input).value.0 == ParseSize("^" + input).value
  {
    assert ("^" + input)[1..] == input;
    if Starts(input, '^') {
      DoubleCaret(input);
    } else if "pct:" <= input {
      assert "^pct:" + input[4..] == "^" + input;
    } else {
      KindIgnoresFlag(input);
    }
  }

  // The same for whole requests: one plan, or one evaluation error.
  lemma RequestTranslation(region: string, size: string, rotation: string, q: Quality, f: Format)
    requires '/' !in region && '/' !in size && '/' !in rotation && size != "full" && size != "max"
    ensures var v2 := ParseRequestV2(JoinPath(region, size, rotation, q, f));
      var v3 := ParseRequest(JoinPath(region, "^" + size, rotation, q, f));
      && (v2.Success? <==> v3.Success?)
      && (v2.Success? ==> v2.value.asV3 == v3.value)
  {
    CutJoined(region, size, rotation, q, f);
    CutJoined(region, "^" + size, rotation, q, f);
    SegmentsTranslation(Segments(region, size, rotation, PrintQuality(q), PrintFormat(f)));
  }

  lemma SegmentsTranslation(s: Segments)
    requires s.size != "full" && s.size != "max"
    ensures var v2 := ParseSegmentsV2(s);
      var v3 := ParseSegments(s.(size := "^" + s.size));
      && (v2.Success? <==> v3.Success?)
      && (v2.Success? ==> v2.value.asV3 == v3.value)
  {
    SizeTranslation(s.size);
  }

  // ----- the language of version 2.1 -----

  predicate IsAlias(s: string) {
    s == "full" || s == "max"
  }

  // The two aliases are the full size, as it is; every other size is the 3.0 form
  // of its text, free to enlarge, and keeps the aspect unless it gives both sides.
  ghost predicate SpellsSizeV2(s: string, size: Size, aspect: bool, full: bool) {
    if IsAlias(s) then size == Size(false, Max) && aspect && full
    else LegalSize(size) && SpellsKind(s, size.kind) && size.upscale && aspect == !size.kind.WidthHeight? && !full
  }

  lemma KindBehindCaret(s: string)
    ensures ParseSize("^" + s).Success? <==> ParseSizeKind(s, true).Some?
    ensures ParseSize("^" + s).Success? ==> ParseSize("^" + s).value == Size(true, ParseSizeKind(s, true).value)
  {
    assert ("^" + s)[1..] == s;
  }

  lemma FlagsOfSize(s: string)
    requires ParseSizeV2(s).Success?
    ensures var (size, aspect, full) := ParseSizeV2(s).value;
      if IsAlias(s) then size == Size(false, Max) && aspect && full
      else size.upscale && aspect == !size.kind.WidthHeight? && !full
  {
  }

  // The 2.1 size parser reads exactly those texts.
  lemma ParseSizeV2Iff(s: string, size: Size, aspect: bool, full: bool)
    ensures ParseSizeV2(s) == Success((size, aspect, full)) <==> SpellsSizeV2(s, size, aspect, full)
  {
    if !IsAlias(s) {
      SizeTranslation(s);
      KindBehindCaret(s);
      if ParseSizeV2(s).Success? {
        KindSound(s, true);
        FlagsOfSize(s);
      }
      if SpellsSizeV2(s, size, aspect, full) {
        KindComplete(s, size.kind, true);
        FlagsOfSize(s);
      }
    }
  }

  ghost predicate SpellsV2(path: string, v2: Request) {
    exists a, b, c :: path == JoinPath(a, b, c, v2.asV3.quality, v2.asV3.format) && SpellsPartsV2(a, b, c, v2)
  }

  ghost predicate SpellsPartsV2(a: string, b: string, c: string, v2: Request) {
    && SpellsRegion(a, v2.asV3.region) && SpellsSizeV2(b, v2.asV3.size, v2.aspectPreserved, v2.wasFull)
    && SpellsRotation(c, v2.asV3.rotation)
  }

  lemma ReadIsSpelledV2(path: string)
    requires ParseRequestV2(path).Success?
    ensures SpellsV2(path, ParseRequestV2(path).value)
  {
    var s, v2 := CutPath(path).value, ParseRequestV2(path).value;
    CutPathIff(path, s);
    ParseRegionIff(s.region, v2.asV3.region);
    ParseSizeV2Iff(s.size, v2.asV3.size, v2.aspectPreserved, v2.wasFull);
    ParseRotationIff(s.rotation, v2.asV3.rotation);
    ParseQualityIff(s.quality, v2.asV3.quality);
    ParseFormatIff(s.format, v2.asV3.format);
    assert path == JoinPath(s.region, s.size, s.rotation, v2.asV3.quality, v2.asV3.format);
    assert SpellsPartsV2(s.region, s.size, s.rotation, v2);
  }

  lemma SizeV2Clean(s: string, size: Size, aspect: bool, full: bool)
    requires SpellsSizeV2(s, size, aspect, full)
    ensures '/' !in s
  {
    if !IsAlias(s) {
      KindClean(s, size.kind);
    }
  }

  lemma SpelledIsReadV2(path: string, v2: Request)
    requires Legal(v2.asV3) && SpellsV2(path, v2)
    ensures ParseRequestV2(path) == Success(v2)
  {
    var a, b, c :| path == JoinPath(a, b, c, v2.asV3.quality, v2.asV3.format) && SpellsPartsV2(a, b, c, v2);
    RegionClean(a, v2.asV3.region);
    SizeV2Clean(b, v2.asV3.size, v2.aspectPreserved, v2.wasFull);
    RotationComplete(c, v2.asV3.rotation);
    CutJoined(a, b, c, v2.asV3.quality, v2.asV3.format);
    RegionComplete(a, v2.asV3.region);
    ParseSizeV2Iff(b, v2.asV3.size, v2.aspectPreserved, v2.wasFull);
    QualityFormatShape(v2.asV3.quality, v2.asV3.format);
  }

  // The 2.1 request parser reads exactly the spellings of legal requests.
  lemma ParseRequestV2Iff(path: string, v2: Request)
    ensures ParseRequestV2(path) == Success(v2) <==> Legal(v2.asV3) && SpellsV2(path, v2)
  {
    if ParseRequestV2(path) == Success(v2) {
      ReadIsSpelledV2(path);
    }
    if Legal(v2.asV3) && SpellsV2(path, v2) {
      SpelledIsReadV2(path, v2);
    }
  }

  ghost predicate SizeTextV2(s: string) {
    exists size, aspect, full :: SpellsSizeV2(s, size, aspect, full)
  }

  lemma SizeTextV2Read(s: string)
    ensures ParseSizeV2(s).Success? <==> SizeTextV2(s)
  {
    if ParseSizeV2(s).Success? {
      var (size, aspect, full) := ParseSizeV2(s).value;
      ParseSizeV2Iff(s, size, aspect, full);
    }
    if size, aspect, full :| SpellsSizeV2(s, size, aspect, full) {
      ParseSizeV2Iff(s, size, aspect, full);
    }
  }

  // What any other path is refused for: its structure, its size before the other
  // components, or the first of those, from the left, that spells nothing.
  lemma RefusedForV2(path: string, s: Segments)
    ensures (forall t :: !CutInto(path, t)) ==> ParseRequestV2(path) == Failure(ParseError(InStructure, path))
    ensures CutInto(path, s) && ParseRequestV2(path).Failure? ==>
      ParseRequestV2(path).error == if !SizeTextV2(s.size) then ParseError(InSize, s.size)
                                    else if !RegionText(s.region) then ParseError(InRegion, s.region)
                                    else if !RotationText(s.rotation) then ParseError(InRotation, s.rotation)
                                    else if forall q :: s.quality != PrintQuality(q) then ParseError(InQuality, s.quality)
                                    else ParseError(InFormat, s.format)
  {
    if CutPath(path).Success? {
      CutSound(path);
    }
    CutPathIff(path, s);
    SizeTextV2Read(s.size);
    TextsRead(s.region);
    TextsRead(s.rotation);
    QualityRead(s.quality);
    ParseFormatIff(s.format, Jpg);
  }

  // ----- the canonical spelling -----

  // The size a 2.1 canonical path spells.
  function SpelledSize(plan: Plan, v2: Request): Size {
    if v2.wasFull && plan.IsFullRegion() && !plan.upscales then Size(false, Max)
    else if v2.aspectPreserved then Size(true, Width(plan.outW))
    else Size(true, WidthHeight(plan.outW, plan.outH))
  }

  lemma CanonicalSizeV2Parses(plan: Plan, v2: Request)
    requires plan.outW > 0 && plan.outH > 0
    ensures LegalSize(SpelledSize(plan, v2)) && '/' !in CanonicalSizeV2(plan, v2)
    ensures ParseSizeV2(CanonicalSizeV2(plan, v2)).Success?
    ensures ParseSizeV2(CanonicalSizeV2(plan, v2)).value.0 == SpelledSize(plan, v2)
  {
    var text := CanonicalSizeV2(plan, v2);
    var kind := SpelledSize(plan, v2).kind;
    if !kind.Max? {
      assert text == PrintSizeKind(kind);
      assert IsDigit(text[0]);
      SizeKindRoundTrip(kind, true);
      KindIgnoresFlag(text);
    }
  }

  lemma JoinedParsesV2(region: Region, size: string, rotation: Rotation, q: Quality, f: Format)
    requires LegalRegion(region) && LegalRotation(rotation) && '/' !in size && ParseSizeV2(size).Success?
    ensures var v2 := ParseRequestV2(JoinPath(PrintRegion(region), size, PrintRotation(rotation), q, f));
      v2.Success? && v2.value.asV3 == ImageRequest(region, ParseSizeV2(size).value.0, rotation, q, f)
  {
    RegionNoSlash(region);
    RotationNoSlash(rotation);
    CutJoined(PrintRegion(region), size, PrintRotation(rotation), q, f);
    RegionRoundTrip(region);
    RotationRoundTrip(rotation);
    QualityFormatShape(q, f);
  }

  // Same pixels, same bytes: everything execution reads.
  predicate SameOutput(a: Plan, b: Plan) {
    && a.crop == b.crop && (a.outW, a.outH) == (b.outW, b.outH)
    && (a.mirror, a.degrees) == (b.mirror, b.degrees)
    && (a.quality, a.format) == (b.quality, b.format)
  }

  // The height `w,` would be given for this plan's crop and width.
  function HeightFor(plan: Plan): U32
    requires plan.crop.width > 0
  {
    RoundU32(Times(plan.crop.height, Ratio(plan.outW, plan.crop.width)))
  }

  function Reread(plan: Plan, v2: Request): Result<Request, ParseError> {
    ParseRequestV2(CanonicalPathV2(plan, v2))
  }

  function SpelledRequest(plan: Plan, v2: Request): ImageRequest {
    ImageRequest(plan.CanonicalRegion(), SpelledSize(plan, v2), Rotation(plan.mirror, plan.degrees),
                 plan.quality, plan.format)
  }

  // What the flags of a parsed request say about its size.
  lemma ParsedFlags(path: string)
    requires ParseRequestV2(path).Success?
    ensures var v2 := ParseRequestV2(path).value;
      && v2.asV3.size.upscale == !v2.wasFull && (v2.wasFull ==> v2.asV3.size.kind.Max?)
      && v2.aspectPreserved == !v2.asV3.size.kind.WidthHeight?
  {
    SegmentFlags(CutPath(path).value);
  }

  lemma SegmentFlags(s: Segments)
    requires ParseSegmentsV2(s).Success?
    ensures var v2 := ParseSegmentsV2(s).value;
      && (v2.asV3.size, v2.aspectPreserved, v2.wasFull) == ParseSizeV2(s.size).value
      && v2.asV3.size.upscale == !v2.wasFull && (v2.wasFull ==> v2.asV3.size.kind.Max?)
      && v2.aspectPreserved == !v2.asV3.size.kind.WidthHeight?
  {
  }

  lemma RereadIs(path: string, fullW: U32, fullH: U32, limits: Limits, sqrt: real -> real)
    requires ParseRequestV2(path).Success? && fullW > 0 && fullH > 0
    requires Evaluate(ParseRequestV2(path).value.asV3, fullW, fullH, limits, sqrt).Success?
    ensures var v2 := ParseRequestV2(path).value;
      var plan := Evaluate(v2.asV3, fullW, fullH, limits, sqrt).value;
      && Legal(SpelledRequest(plan, v2))
      && Reread(plan, v2).Success? && Reread(plan, v2).value.asV3 == SpelledRequest(plan, v2)
  {
    var v2 := ParseRequestV2(path).value;
    var plan := Evaluate(v2.asV3, fullW, fullH, limits, sqrt).value;
    TurnFolded(v2.asV3.rotation.degrees);
    SpellingParses(plan, v2);
  }

  lemma SpellingParses(plan: Plan, v2: Request)
    requires plan.crop.width > 0 && plan.crop.height > 0 && plan.outW > 0 && plan.outH > 0
    requires LegalRotation(Rotation(plan.mirror, plan.degrees))
    ensures Legal(SpelledRequest(plan, v2))
    ensures Reread(plan, v2).Success? && Reread(plan, v2).value.asV3 == SpelledRequest(plan, v2)
  {
    CanonicalSizeV2Parses(plan, v2);
    JoinedParsesV2(plan.CanonicalRegion(), CanonicalSizeV2(plan, v2), Rotation(plan.mirror, plan.degrees),
                   plan.quality, plan.format);
  }

  lemma SpelledSizeResolves(plan: Plan, v2: Request, limits: Limits, sqrt: real -> real)
    requires LegalSize(v2.asV3.size) && plan.crop.width > 0 && plan.crop.height > 0 && plan.outW > 0 && plan.outH > 0
    requires v2.wasFull ==> v2.asV3.size == Size(false, Max)
    requires ResolveSize(v2.asV3.size, plan.crop.width, plan.crop.height, limits, sqrt)
          == Success((plan.outW, plan.outH, plan.upscales))
    ensures LegalSize(SpelledSize(plan, v2))
    ensures var r := ResolveSize(SpelledSize(plan, v2), plan.crop.width, plan.crop.height, limits, sqrt);
      && r.Success? && r.value.0 == plan.outW
      && r.value.1 == if SpelledSize(plan, v2).kind.Width? then HeightFor(plan) else plan.outH
  {
  }

  // A plan's region and rotation with some size: the plan's output comes back
  // exactly when the size resolves to the plan's.
  lemma SpelledEvaluates(plan: Plan, size: Size, limits: Limits, sqrt: real -> real)
    requires plan.crop.Inside(plan.fullW, plan.fullH) && LegalSize(size)
    requires plan.outW > 0 && plan.outH > 0 && WithinLimits(plan.outW, plan.outH, limits)
    requires LegalRotation(Rotation(plan.mirror, plan.degrees)) && plan.degrees.Mod(360) == plan.degrees
    requires ResolveSize(size, plan.crop.width, plan.crop.height, limits, sqrt).Success?
    ensures LegalRegion(plan.CanonicalRegion())
    ensures var r := ResolveSize(size, plan.crop.width, plan.crop.height, limits, sqrt).value;
      var again := Evaluate(ImageRequest(plan.CanonicalRegion(), size, Rotation(plan.mirror, plan.degrees),
                                         plan.quality, plan.format), plan.fullW, plan.fullH, limits, sqrt);
      (again.Success? && SameOutput(again.value, plan)) <==> (r.0 == plan.outW && r.1 == plan.outH)
  {
    CanonicalRegionResolves(plan);
  }

  // The size is spelled `full` on the whole image, in both sides, or as a width
  // that implies the plan's height.
  predicate RereadsAlike(plan: Plan, v2: Request)
    requires plan.crop.width > 0
  {
    (v2.wasFull && plan.IsFullRegion()) || !v2.aspectPreserved || plan.outH == HeightFor(plan)
  }

  // The 2.1 canonical path gives the same output back exactly then.
  lemma CanonicalV2Iff(path: string, fullW: U32, fullH: U32, limits: Limits, sqrt: real -> real)
    requires ParseRequestV2(path).Success? && fullW > 0 && fullH > 0
    requires Evaluate(ParseRequestV2(path).value.asV3, fullW, fullH, limits, sqrt).Success?
    ensures var v2 := ParseRequestV2(path).value;
      var plan := Evaluate(v2.asV3, fullW, fullH, limits, sqrt).value;
      Reread(plan, v2).Success? &&
      var again := Evaluate(Reread(plan, v2).value.asV3, fullW, fullH, limits, sqrt);
      (again.Success? && SameOutput(again.value, plan)) <==> RereadsAlike(plan, v2)
  {
    var v2 := ParseRequestV2(path).value;
    var plan := Evaluate(v2.asV3, fullW, fullH, limits, sqrt).value;
    ParsedFlags(path);
    RereadIs(path, fullW, fullH, limits, sqrt);
    if v2.wasFull {
      UnflaggedNeverUpscales(v2.asV3, fullW, fullH, limits, sqrt);
    }
    PlanKeepsSize(v2.asV3, fullW, fullH, limits, sqrt);
    SpelledSizeResolves(plan, v2, limits, sqrt);
    TurnFolded(v2.asV3.rotation.degrees);
    SpelledEvaluates(plan, SpelledSize(plan, v2), limits, sqrt);
  }

  lemma UnflaggedNeverUpscales(request: ImageRequest, fullW: U32, fullH: U32, limits: Limits, sqrt: real -> real)
    requires Legal(request) && fullW > 0 && fullH > 0 && !request.size.upscale
    ensures var r := Evaluate(request, fullW, fullH, limits, sqrt); r.Success? ==> !r.value.upscales
  {
  }

  // ----- a text is kept even where the output is not -----

  // What reading a width back evaluates to.
  lemma WidthEvaluates(plan: Plan, limits: Limits, sqrt: real -> real)
    requires plan.crop.Inside(plan.fullW, plan.fullH) && plan.outW > 0
    requires plan.outW <= limits.width && plan.degrees.Mod(360) == plan.degrees
    requires LegalRotation(Rotation(plan.mirror, plan.degrees))
    ensures LegalRegion(plan.CanonicalRegion())
    ensures var h := HeightFor(plan);
      var again := Evaluate(ImageRequest(plan.CanonicalRegion(), Size(true, Width(plan.outW)),
                                         Rotation(plan.mirror, plan.degrees), plan.quality, plan.format),
                            plan.fullW, plan.fullH, limits, sqrt);
      && (again.Success? <==> 0 < h && WithinLimits(plan.outW, h, limits))
      && (again.Success? ==> SameOutput(again.value, plan.(outH := h)))
  {
    CanonicalRegionResolves(plan);
  }

  lemma RereadFlags(path: string, fullW: U32, fullH: U32, limits: Limits, sqrt: real -> real)
    requires ParseRequestV2(path).Success? && fullW > 0 && fullH > 0
    requires Evaluate(ParseRequestV2(path).value.asV3, fullW, fullH, limits, sqrt).Success?
    ensures var v2 := ParseRequestV2(path).value;
      var plan := Evaluate(v2.asV3, fullW, fullH, limits, sqrt).value;
      Reread(plan, v2).Success? && Reread(plan, v2).value.asV3 == SpelledRequest(plan, v2)
      && Reread(plan, v2).value.wasFull == SpelledSize(plan, v2).kind.Max?
      && Reread(plan, v2).value.aspectPreserved == !SpelledSize(plan, v2).kind.WidthHeight?
      && plan.outW <= limits.width && LegalRotation(Rotation(plan.mirror, plan.degrees))
      && plan.degrees.Mod(360) == plan.degrees
  {
    RereadIs(path, fullW, fullH, limits, sqrt);
    var v2 := ParseRequestV2(path).value;
    TurnFolded(v2.asV3.rotation.degrees);
    PlanKeepsSize(v2.asV3, fullW, fullH, limits, sqrt);
    ParsedFlags(CanonicalPathV2(Evaluate(v2.asV3, fullW, fullH, limits, sqrt).value, v2));
  }

  // A request that does not read back alike still shares its text with what it
  // reads back as, whenever that evaluates: one text, two outputs.
  lemma TextOutlivesOutput(path: string, fullW: U32, fullH: U32, limits: Limits, sqrt: real -> real)
    requires ParseRequestV2(path).Success? && fullW > 0 && fullH > 0
    requires Evaluate(ParseRequestV2(path).value.asV3, fullW, fullH, limits, sqrt).Success?
    requires var v2 := ParseRequestV2(path).value;
      !RereadsAlike(Evaluate(v2.asV3, fullW, fullH, limits, sqrt).value, v2)
    ensures var v2 := ParseRequestV2(path).value;
      var plan := Evaluate(v2.asV3, fullW, fullH, limits, sqrt).value;
      Reread(plan, v2).Success? &&
      var reread := Reread(plan, v2).value;
      var again := Evaluate(reread.asV3, fullW, fullH, limits, sqrt);
      && (again.Success? <==> 0 < HeightFor(plan) && WithinLimits(plan.outW, HeightFor(plan), limits))
      && (again.Success? ==>
            CanonicalPathV2(again.value, reread) == CanonicalPathV2(plan, v2) && !SameOutput(again.value, plan))
  {
    var v2 := ParseRequestV2(path).value;
    var plan := Evaluate(v2.asV3, fullW, fullH, limits, sqrt).value;
    RereadFlags(path, fullW, fullH, limits, sqrt);
    RereadAsWidth(plan, v2, Reread(plan, v2).value, limits, sqrt);
  }

  lemma RereadAsWidth(plan: Plan, v2: Request, reread: Request, limits: Limits, sqrt: real -> real)
    requires plan.crop.Inside(plan.fullW, plan.fullH) && plan.outW > 0 && plan.outW <= limits.width
    requires LegalRotation(Rotation(plan.mirror, plan.degrees)) && plan.degrees.Mod(360) == plan.degrees
    requires !RereadsAlike(plan, v2) && reread.asV3 == SpelledRequest(plan, v2)
    requires reread.wasFull == SpelledSize(plan, v2).kind.Max?
    requires reread.aspectPreserved == !SpelledSize(plan, v2).kind.WidthHeight?
    ensures Legal(reread.asV3)
    ensures var again := Evaluate(reread.asV3, plan.fullW, plan.fullH, limits, sqrt);
      && (again.Success? <==> 0 < HeightFor(plan) && WithinLimits(plan.outW, HeightFor(plan), limits))
      && (again.Success? ==>
            CanonicalPathV2(again.value, reread) == CanonicalPathV2(plan, v2) && !SameOutput(again.value, plan))
  {
    SpelledAsWidth(plan, v2);
    WidthEvaluates(plan, limits, sqrt);
    var again := Evaluate(reread.asV3, plan.fullW, plan.fullH, limits, sqrt);
    if again.Success? {
      WidthText(plan, v2, again.value, reread);
    }
  }

  lemma SpelledAsWidth(plan: Plan, v2: Request)
    requires plan.crop.width > 0 && !RereadsAlike(plan, v2)
    ensures SpelledSize(plan, v2) == Size(true, Width(plan.outW)) && plan.outH != HeightFor(plan)
  {
  }

  // The text of a width does not depend on the height.
  lemma WidthText(a: Plan, u: Request, b: Plan, v: Request)
    requires SpelledSize(a, u) == Size(true, Width(a.outW)) && v.aspectPreserved && !v.wasFull
    requires SameOutput(b, a.(outH := b.outH)) && (a.fullW, a.fullH) == (b.fullW, b.fullH)
    ensures CanonicalPathV2(a, u) == CanonicalPathV2(b, v)
  {
  }

  // ----- where it happens -----

  // The path of a numeric size on the whole image.
  function WholeImagePath(kind: SizeKind): string {
    JoinPath(PrintRegion(Full), PrintSizeKind(kind), PrintRotation(Rotation(false, Decimal(0, 0))), Default, Jpg)
  }

  function WholeImageRequest(kind: SizeKind): ImageRequest {
    ImageRequest(Full, Size(true, kind), Rotation(false, Decimal(0, 0)), Default, Jpg)
  }

  lemma NumericSizeParses(kind: SizeKind)
    requires LegalSize(Size(true, kind)) && (kind.Width? || kind.Height?)
    ensures ParseSizeV2(PrintSizeKind(kind)) == Success((Size(true, kind), true, false))
    ensures '/' !in PrintSizeKind(kind)
  {
    var text := PrintSizeKind(kind);
    assert text[0] == ',' || IsDigit(text[0]);
    SizeKindRoundTrip(kind, true);
    KindIgnoresFlag(text);
  }

  lemma WholeImageParses(kind: SizeKind)
    requires LegalSize(Size(true, kind)) && (kind.Width? || kind.Height?)
    ensures ParseRequestV2(WholeImagePath(kind)) == Success(Request(WholeImageRequest(kind), true, false))
  {
    NumericSizeParses(kind);
    JoinedParsesV2(Full, PrintSizeKind(kind), Rotation(false, Decimal(0, 0)), Default, Jpg);
    ParsedFlags(WholeImagePath(kind));
  }

  lemma PathsSpelled()
    ensures WholeImagePath(Height(50)) == "full/,50/0/default.jpg" && WholeImagePath(Width(2)) == "full/2,/0/default.jpg"
  {
    SizesSpelled();
    WholeImageSpelled(Height(50));
    WholeImageSpelled(Width(2));
    LiteralPaths();
  }

  lemma SizesSpelled()
    ensures PrintSizeKind(Height(50)) == ",50" && PrintSizeKind(Width(2)) == "2,"
  {
    assert FromNat(2) == "2" && FromNat(50) == "50";
  }

  lemma LiteralPaths()
    ensures "full" + ['/'] + (",50" + ['/'] + "0/default.jpg") == "full/,50/0/default.jpg"
    ensures "full" + ['/'] + ("2," + ['/'] + "0/default.jpg") == "full/2,/0/default.jpg"
  {
  }

  lemma WholeImageSpelled(kind: SizeKind)
    ensures WholeImagePath(kind) == "full" + ['/'] + (PrintSizeKind(kind) + ['/'] + "0/default.jpg")
  {
    assert FromNat(0) == "0";
    assert PrintRotation(Rotation(false, Decimal(0, 0))) == "0";
    assert PrintQuality(Default) + "." + PrintFormat(Jpg) == "default.jpg";
    JoinFour("full", PrintSizeKind(kind), "0", "default.jpg");
    assert "0" + ['/'] + "default.jpg" == "0/default.jpg";
  }

  lemma JoinFour(a: string, b: string, c: string, d: string)
    ensures Join([a, b, c, d], '/') == a + ['/'] + (b + ['/'] + (c + ['/'] + d))
  {
    var four, three, two := [a, b, c, d], [b, c, d], [c, d];
    assert four[1..] == three && three[1..] == two && two[1..] == [d];
    assert Join(two, '/') == c + ['/'] + d;
    assert Join(three, '/') == b + ['/'] + Join(two, '/');
  }

  // On an image of 3 by 100, `,50` is 2 by 50 and `2,` is 2 by 67.
  lemma NarrowImage(limits: Limits, sqrt: real -> real)
    requires limits.width >= 2 && limits.height >= 50 && limits.area >= 100
    ensures var high := Evaluate(WholeImageRequest(Height(50)), 3, 100, limits, sqrt);
      && high.Success? && (high.value.outW, high.value.outH) == (2, 50) && HeightFor(high.value) == 67
    ensures limits.height >= 67 && limits.area >= 134 ==>
      Evaluate(WholeImageRequest(Width(2)), 3, 100, limits, sqrt)
      == Success(Evaluate(WholeImageRequest(Height(50)), 3, 100, limits, sqrt).value.(outH := 67))
  {
    assert RoundU32(Times(3, Ratio(50, 100))) == 2;
    assert RoundU32(Times(100, Ratio(2, 3))) == 67;
  }

  // A request whose 2.1 canonical path does not give its output back.
  lemma CanonicalV2CanDiffer(limits: Limits, sqrt: real -> real)
    requires limits.width >= 2 && limits.height >= 50 && limits.area >= 100
    ensures var parsed := ParseRequestV2("full/,50/0/default.jpg");
      parsed.Success? &&
      var r := Evaluate(parsed.value.asV3, 3, 100, limits, sqrt);
      r.Success? && Reread(r.value, parsed.value).Success? &&
      var again := Evaluate(Reread(r.value, parsed.value).value.asV3, 3, 100, limits, sqrt);
      !(again.Success? && SameOutput(again.value, r.value))
  {
    PathsSpelled();
    WholeImageParses(Height(50));
    NarrowImage(limits, sqrt);
    CanonicalV2Iff(WholeImagePath(Height(50)), 3, 100, limits, sqrt);
  }

  // Two requests for different outputs with one canonical text.
  lemma TextsCollide(limits: Limits, sqrt: real -> real)
    requires limits.width >= 2 && limits.height >= 67 && limits.area >= 134
    ensures var (a, b) := (ParseRequestV2("full/,50/0/default.jpg"), ParseRequestV2("full/2,/0/default.jpg"));
      a.Success? && b.Success? &&
      var (p, q) := (Evaluate(a.value.asV3, 3, 100, limits, sqrt), Evaluate(b.value.asV3, 3, 100, limits, sqrt));
      && p.Success? && q.Success? && !SameOutput(p.value, q.value)
      && CanonicalPathV2(p.value, a.value) == CanonicalPathV2(q.value, b.value)
  {
    PathsSpelled();
    WholeImageParses(Height(50));
    WholeImageParses(Width(2));
    NarrowImage(limits, sqrt);
    var a, b := Request(WholeImageRequest(Height(50)), true, false), Request(WholeImageRequest(Width(2)), true, false);
    var p := Evaluate(a.asV3, 3, 100, limits, sqrt).value;
    WidthText(p, a, p.(outH := 67), b);
  }
}
