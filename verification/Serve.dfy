// The image handler: one request from its path to its bytes and back to the link
// the response names itself by.
module Serving {
  import opened Wrappers
  import opened Text
  import opened Decimals
  import opened Grammar
  import opened Spelling
  import opened Eval
  import opened Canonical
  import V2
  import opened Ident
  import opened Route
  import opened Tags
  import opened Images
  import opened Levels
  import opened Pyramids
  import opened Rasters
  import opened Pipeline

  datatype Reply =
    | NotFound
    | BadRequest(parseError: ParseError)
    | Refused(evalError: EvalError)
    | Broken(error: PipelineError)
    | NotModified(tag: Tag)
    | Served(bytes: string, format: Format, link: string, tag: Tag)

  // What a deployment serves an identifier's file under.
  datatype Settings = Settings(limits: Limits, sqrt: real -> real, kernels: Kernels)

  // The file: its directories, and what of it is broken.
  datatype Source = Source(ifds: seq<Ifd>, broken: set<nat>, damaged: set<(nat, nat)>, version: (nat, nat)) {
    ghost predicate Valid() {
      |ifds| > 0 && forall k :: 0 <= k < |ifds| ==> ifds[k].Valid()
    }
  }

  ghost function LevelsOf(ifds: seq<Ifd>): (levels: seq<Level>)
    requires forall k :: 0 <= k < |ifds| ==> ifds[k].Valid()
    ensures |levels| == |ifds| && Surveyed(ifds, levels)
  {
    seq(|ifds|, k requires 0 <= k < |ifds| && ifds[k].Valid() => LevelOf(ifds, k))
  }

  lemma SurveyIsLevelsOf(ifds: seq<Ifd>, levels: seq<Level>)
    requires (forall k :: 0 <= k < |ifds| ==> ifds[k].Valid()) && Surveyed(ifds, levels) && |levels| == |ifds|
    ensures levels == LevelsOf(ifds)
  {
    var all := LevelsOf(ifds);
    forall k | 0 <= k < |levels|
      ensures levels[k] == all[k]
    {
    }
  }

  lemma OpenedIsPyramidal(source: Source)
    requires source.Valid() && OpenError(source.ifds, source.broken).None?
    ensures Pyramidal(source.ifds, LevelsOf(source.ifds))
  {
    SurveyShrinks(source.ifds, LevelsOf(source.ifds));
  }

  // A path identifies itself by its version's prefix, the identifier and its
  // canonical text.
  function LinkOf(version: Version, id: Identifier, text: string): string
    requires Bytes(id.path)
  {
    version.Mount() + (Encoding(id.path) + "/" + text)
  }

  // ----- what a request is answered -----

  ghost function Execution(source: Source, plan: Plan, settings: Settings): Result<string, PipelineError>
    requires source.Valid() && settings.kernels.Sound() && OpenError(source.ifds, source.broken).None?
    requires plan.crop.width > 0 && plan.crop.height > 0
  {
    OpenedIsPyramidal(source);
    TiledOutcome(source.ifds, source.broken, source.damaged, LevelsOf(source.ifds), |source.ifds| - 1, plan,
                 settings.kernels)
  }

  function EvaluatedOn(s: Spelled, source: Source, settings: Settings): (r: Result<Plan, EvalError>)
    requires source.Valid() && Legal(s.AsV3())
    ensures r.Success? ==> r.value.crop.width > 0 && r.value.crop.height > 0
  {
    Evaluate(s.AsV3(), source.ifds[0].picture.width, source.ifds[0].picture.height, settings.limits, settings.sqrt)
  }

  // Once there is a plan, and its text.
  ghost function AnswerPlan(version: Version, id: Identifier, text: string, plan: Plan, source: Source,
                            settings: Settings, held: set<Tag>): Reply
    requires source.Valid() && settings.kernels.Sound() && OpenError(source.ifds, source.broken).None?
    requires plan.crop.width > 0 && plan.crop.height > 0 && Bytes(id.path)
  {
    var tag := Tag(id.path, source.version, text);
    if tag in held then NotModified(tag)
    else
      match Execution(source, plan, settings)
      case Failure(e) => Broken(e)
      case Success(bytes) => Served(bytes, plan.format, LinkOf(version, id, text), tag)
  }

  // Once the identifier is decoded and the request parsed.
  ghost function AnswerParsed(version: Version, id: Identifier, s: Spelled, source: Source, settings: Settings,
                              held: set<Tag>): Reply
    requires source.Valid() && settings.kernels.Sound() && Bytes(id.path) && Legal(s.AsV3())
  {
    match OpenError(source.ifds, source.broken)
    case Some(e) => Broken(CodecFailed(e))
    case None =>
      match EvaluatedOn(s, source, settings)
      case Failure(e) => Refused(e)
      case Success(plan) => AnswerPlan(version, id, s.CanonicalText(plan), plan, source, settings, held)
  }

  ghost function Answer(version: Version, rawId: string, rest: string, source: Source, settings: Settings, held: set<Tag>)
    : Reply
    requires source.Valid() && settings.kernels.Sound() && Bytes(rawId)
  {
    match Decoded(rawId)
    case Failure(_) => NotFound
    case Success(id) =>
      match ParseAs(version, rest)
      case Failure(e) => BadRequest(e)
      case Success(s) =>
        DecodedBytes(rawId);
        AnswerParsed(version, id, s, source, settings, held)
  }

  lemma DecodedBytes(rawId: string)
    requires Bytes(rawId) && Decoded(rawId).Success?
    ensures Bytes(Decoded(rawId).value.path)
  {
    DecodeYieldsBytes(rawId);
  }

  // ----- which reply it is -----

  // The segment names a path inside a source root.
  ghost predicate NamesPath(rawId: string) {
    exists path :: SpelledBy(path, rawId) && SafePath(path)
  }

  // The path is a request in the grammar of the version.
  ghost predicate NamesRequest(version: Version, rest: string) {
    match version
    case ApiV3 => exists request :: Legal(request) && Spells(rest, request)
    case ApiV2 => exists parsed: V2.Request :: Legal(parsed.asV3) && V2.SpellsV2(rest, parsed)
  }

  lemma NamesPathIff(rawId: string)
    requires Bytes(rawId)
    ensures Decoded(rawId).Success? <==> NamesPath(rawId)
  {
    if Decoded(rawId).Success? {
      AcceptedIff(rawId, Decoded(rawId).value.path);
    }
    if path :| SpelledBy(path, rawId) && SafePath(path) {
      AcceptedIff(rawId, path);
    }
  }

  lemma NamesRequestIff(version: Version, rest: string)
    ensures ParseAs(version, rest).Success? <==> NamesRequest(version, rest)
  {
    match version
    case ApiV3 =>
      if ParseRequest(rest).Success? {
        ParseRequestIff(rest, ParseRequest(rest).value);
      }
      if request :| Legal(request) && Spells(rest, request) {
        ParseRequestIff(rest, request);
      }
    case ApiV2 =>
      if V2.ParseRequestV2(rest).Success? {
        V2.ParseRequestV2Iff(rest, V2.ParseRequestV2(rest).value);
      }
      if parsed: V2.Request :| Legal(parsed.asV3) && V2.SpellsV2(rest, parsed) {
        V2.ParseRequestV2Iff(rest, parsed);
      }
  }

  // A reply is 404 exactly when the identifier names no path, 400 exactly when it
  // does and the rest is no request, and bytes are in the format asked for.
  lemma ReplyIs(version: Version, rawId: string, rest: string, source: Source, settings: Settings, held: set<Tag>)
    requires source.Valid() && settings.kernels.Sound() && Bytes(rawId)
    ensures var reply := Answer(version, rawId, rest, source, settings, held);
      && (reply == NotFound <==> !NamesPath(rawId))
      && (reply.BadRequest? <==> NamesPath(rawId) && !NamesRequest(version, rest))
      && (reply.Refused? ==> NamesRequest(version, rest)
                             && EvaluatedOn(ParseAs(version, rest).value, source, settings) == Failure(reply.evalError))
      && (reply.Served? ==> ParseAs(version, rest).Success?
                            && reply.format == ParseAs(version, rest).value.AsV3().format)
  {
    NamesPathIff(rawId);
    NamesRequestIff(version, rest);
    AnswerForks(version, rawId, rest, source, settings, held);
  }

  predicate BeyondParsing(reply: Reply, format: Format) {
    reply != NotFound && !reply.BadRequest? && (reply.Served? ==> reply.format == format)
  }

  lemma PlanForks(version: Version, id: Identifier, text: string, plan: Plan, source: Source, settings: Settings,
                  held: set<Tag>)
    requires source.Valid() && settings.kernels.Sound() && OpenError(source.ifds, source.broken).None?
    requires plan.crop.width > 0 && plan.crop.height > 0 && Bytes(id.path)
    ensures BeyondParsing(AnswerPlan(version, id, text, plan, source, settings, held), plan.format)
    ensures !AnswerPlan(version, id, text, plan, source, settings, held).Refused?
  {
  }

  lemma ParsedForks(version: Version, id: Identifier, s: Spelled, source: Source, settings: Settings, held: set<Tag>)
    requires source.Valid() && settings.kernels.Sound() && Bytes(id.path) && Legal(s.AsV3())
    ensures BeyondParsing(AnswerParsed(version, id, s, source, settings, held), s.AsV3().format)
    ensures var reply := AnswerParsed(version, id, s, source, settings, held);
      reply.Refused? ==> EvaluatedOn(s, source, settings) == Failure(reply.evalError)
  {
    var evaluated := EvaluatedOn(s, source, settings);
    if OpenError(source.ifds, source.broken).None? && evaluated.Success? {
      PlanForks(version, id, s.CanonicalText(evaluated.value), evaluated.value, source, settings, held);
    }
  }

  lemma AnswerForks(version: Version, rawId: string, rest: string, source: Source, settings: Settings, held: set<Tag>)
    requires source.Valid() && settings.kernels.Sound() && Bytes(rawId)
    ensures var reply := Answer(version, rawId, rest, source, settings, held);
      && (reply == NotFound <==> Decoded(rawId).Failure?)
      && (reply.BadRequest? <==> Decoded(rawId).Success? && ParseAs(version, rest).Failure?)
      && (reply.Refused? ==> ParseAs(version, rest).Success?
                             && EvaluatedOn(ParseAs(version, rest).value, source, settings) == Failure(reply.evalError))
      && (reply.Served? ==> ParseAs(version, rest).Success?
                            && reply.format == ParseAs(version, rest).value.AsV3().format)
  {
    if Decoded(rawId).Success? && ParseAs(version, rest).Success? {
      DecodedBytes(rawId);
      ParsedForks(version, Decoded(rawId).value, ParseAs(version, rest).value, source, settings, held);
    }
  }

  // ----- the handler -----

  ghost predicate Reads(decoder: TiffDecoder, source: Source) {
    (decoder.ifds, decoder.broken, decoder.damaged) == (source.ifds, source.broken, source.damaged)
  }

  // The image handler, over the tags the client already holds.
  method Serve(version: Version, rawId: string, rest: string, decoder: TiffDecoder, source: Source, settings: Settings,
               held: set<Tag>)
    returns (reply: Reply)
    requires Bytes(rawId) && decoder.Valid() && decoder.position == 0 && settings.kernels.Sound()
    requires Reads(decoder, source) && source.Valid()
    modifies decoder
    ensures reply == Answer(version, rawId, rest, source, settings, held)
    ensures reply.NotModified? ==> reply.tag in held
  {
    var id := Decode(rawId);
    if id.Failure? {
      return NotFound;
    }
    var parsed := ParseAs(version, rest);
    if parsed.Failure? {
      return BadRequest(parsed.error);
    }
    DecodedBytes(rawId);
    reply := ServeParsed(version, id.value, parsed.value, decoder, source, settings, held);
  }

  method ServeParsed(version: Version, id: Identifier, s: Spelled, decoder: TiffDecoder, source: Source,
                     settings: Settings, held: set<Tag>)
    returns (reply: Reply)
    requires Bytes(id.path) && Legal(s.AsV3())
    requires decoder.Valid() && decoder.position == 0 && settings.kernels.Sound()
    requires Reads(decoder, source) && source.Valid()
    modifies decoder
    ensures reply == AnswerParsed(version, id, s, source, settings, held)
    ensures reply.NotModified? ==> reply.tag in held
  {
    var opening := TiffPyramid.Open(decoder);
    if opening.Failure? {
      return Broken(CodecFailed(opening.error));
    }
    var master := opening.value;
    SurveyIsLevelsOf(source.ifds, master.levels);
    LevelStands(source.ifds, master.levels, 0);
    var evaluated := Evaluate(s.AsV3(), master.levels[0].width, master.levels[0].height, settings.limits, settings.sqrt);
    if evaluated.Failure? {
      return Refused(evaluated.error);
    }
    var plan := evaluated.value;
    var text := s.CanonicalText(plan);
    var tag := Tag(id.path, source.version, text);
    if tag in held {
      return NotModified(tag);
    }
    var executed := ExecuteTiled(master, plan, settings.kernels);
    if executed.Failure? {
      return Broken(executed.error);
    }
    var encoded := Ident.Encoded(id);
    return Served(executed.value, plan.format, version.Mount() + (encoded + "/" + text), tag);
  }

  // ----- no request reaches an internal refusal -----

  // The errors that would mean a bug in the server itself.
  predicate Internal(e: PipelineError) {
    || e == CodecFailed(Corrupt(NoSuchLevel)) || e == CodecFailed(Corrupt(OutsideLevel))
    || e == CodecFailed(RasterFailed(LayoutMismatch)) || e == CodecFailed(RasterFailed(OutOfBounds))
  }

  lemma RegionNeverInternal(ifd: Ifd, at: nat, damaged: set<(nat, nat)>, x: nat, y: nat, w: nat, h: nat)
    requires ifd.Valid() && w > 0 && h > 0 && Contains(ifd.picture, x, y, w, h)
    ensures var r := RegionOutcome(ifd, at, damaged, x, y, w, h);
      r.Failure? ==> r.error == Corrupt(BadTile) || r.error == RasterFailed(SizeOverflow)
  {
  }

  lemma CropNeverInternal(ifds: seq<Ifd>, broken: set<nat>, damaged: set<(nat, nat)>, levels: seq<Level>, at: nat,
                          crop: CropRect, needed: real)
    requires Pyramidal(ifds, levels) && crop.width > 0 && crop.height > 0
    ensures var r := CropOutcome(ifds, broken, damaged, levels, at, crop, needed);
      r.Failure? ==> !Internal(CodecFailed(r.error))
  {
    ChosenStands(ifds, levels, crop, needed);
    var level, g := LevelForScale(levels, needed), LevelRegion(LevelForScale(levels, needed), crop);
    LevelStands(ifds, levels, level.ifd);
    RegionNeverInternal(ifds[level.ifd], level.ifd, damaged, g.x, g.y, g.w, g.h);
  }

  lemma ExecutionNeverInternal(source: Source, plan: Plan, settings: Settings)
    requires source.Valid() && settings.kernels.Sound() && OpenError(source.ifds, source.broken).None?
    requires plan.crop.width > 0 && plan.crop.height > 0
    ensures Execution(source, plan, settings).Failure? ==> !Internal(Execution(source, plan, settings).error)
  {
    OpenedIsPyramidal(source);
    CropNeverInternal(source.ifds, source.broken, source.damaged, LevelsOf(source.ifds), |source.ifds| - 1, plan.crop,
                      Needed(plan));
  }

  // Whatever the path, the file and the settings: a broken reply is for a file
  // that does not open or read, a size beyond memory, or a kernel that failed.
  lemma NeverInternal(version: Version, rawId: string, rest: string, source: Source, settings: Settings, held: set<Tag>)
    requires source.Valid() && settings.kernels.Sound() && Bytes(rawId)
    ensures var reply := Answer(version, rawId, rest, source, settings, held);
      reply.Broken? ==> !Internal(reply.error)
  {
    SurveyNeverInternal(source.ifds, source.broken, 0);
    if Decoded(rawId).Success? && ParseAs(version, rest).Success? && OpenError(source.ifds, source.broken).None? {
      var s := ParseAs(version, rest).value;
      var evaluated := EvaluatedOn(s, source, settings);
      if evaluated.Success? {
        ExecutionNeverInternal(source, evaluated.value, settings);
      }
    }
  }

  lemma {:induction false} SurveyNeverInternal(ifds: seq<Ifd>, broken: set<nat>, k: nat)
    requires k < |ifds|
    ensures SurveyError(ifds, broken, k).Some? ==> !Internal(CodecFailed(SurveyError(ifds, broken, k).value))
    decreases |ifds| - k
  {
    if k + 1 < |ifds| {
      SurveyNeverInternal(ifds, broken, k + 1);
    }
  }

  // ----- the link leads back -----

  // The same output is the same bytes.
  lemma SameOutputSameBytes(a: Plan, b: Plan, source: Source, settings: Settings)
    requires source.Valid() && settings.kernels.Sound() && OpenError(source.ifds, source.broken).None?
    requires a.crop.width > 0 && a.crop.height > 0 && V2.SameOutput(a, b)
    ensures Execution(source, a, settings) == Execution(source, b, settings)
  {
    OpenedIsPyramidal(source);
    assert Needed(a) == Needed(b);
    SameOutputSameProduct(a, b, settings.kernels);
  }

  lemma SameOutputSameProduct(a: Plan, b: Plan, k: Kernels)
    requires k.Sound() && V2.SameOutput(a, b)
    ensures forall p: Picture :: 1 <= p.channels <= 4 ==> Produced(p, a, k) == Produced(p, b, k)
  {
  }

  lemma AnswersByPlan(version: Version, rawId: string, rest: string, id: Identifier, s: Spelled, plan: Plan,
                      source: Source, settings: Settings, held: set<Tag>)
    requires source.Valid() && settings.kernels.Sound() && Bytes(rawId) && OpenError(source.ifds, source.broken).None?
    requires Decoded(rawId) == Success(id) && ParseAs(version, rest) == Success(s)
    requires EvaluatedOn(s, source, settings) == Success(plan)
    ensures Bytes(id.path)
    ensures Answer(version, rawId, rest, source, settings, held)
         == AnswerPlan(version, id, s.CanonicalText(plan), plan, source, settings, held)
  {
    DecodedBytes(rawId);
  }

  // What a reply with bytes has behind it.
  lemma ServedStands(version: Version, rawId: string, rest: string, source: Source, settings: Settings, held: set<Tag>)
    requires source.Valid() && settings.kernels.Sound() && Bytes(rawId)
    requires var reply := Answer(version, rawId, rest, source, settings, held); reply.Served? || reply.NotModified?
    ensures OpenError(source.ifds, source.broken).None?
    ensures Decoded(rawId).Success? && ParseAs(version, rest).Success?
    ensures EvaluatedOn(ParseAs(version, rest).value, source, settings).Success?
    ensures Bytes(Decoded(rawId).value.path)
    ensures var id, s := Decoded(rawId).value, ParseAs(version, rest).value;
      var plan := EvaluatedOn(s, source, settings).value;
      Answer(version, rawId, rest, source, settings, held)
      == AnswerPlan(version, id, s.CanonicalText(plan), plan, source, settings, held)
  {
    DecodedBytes(rawId);
  }

  // Asking for the link of a 3.0 reply gives that very reply, and asking with its
  // tag that nothing changed.
  lemma LinkAnswersAlike(rawId: string, rest: string, source: Source, settings: Settings, held: set<Tag>)
    requires source.Valid() && settings.kernels.Sound() && Bytes(rawId)
    requires Answer(ApiV3, rawId, rest, source, settings, held).Served?
    ensures var reply := Answer(ApiV3, rawId, rest, source, settings, held);
      var route := RouteOf(reply.link);
      && route.Image? && route.version == ApiV3 && Bytes(route.identifier)
      && Answer(ApiV3, route.identifier, route.rest, source, settings, {}) == reply
      && Answer(ApiV3, route.identifier, route.rest, source, settings, {reply.tag}) == NotModified(reply.tag)
  {
    ServedStands(ApiV3, rawId, rest, source, settings, held);
    var id, request := Decoded(rawId).value, ParseRequest(rest).value;
    var plan := EvaluatedOn(InV3(request), source, settings).value;
    var reply := Answer(ApiV3, rawId, rest, source, settings, held);
    LinkReadBack(rawId, request, plan, source, settings);
    var route := RouteOf(reply.link);
    var again := InV3(ParseRequest(route.rest).value);
    AnswersByPlan(ApiV3, route.identifier, route.rest, id, again, plan, source, settings, {});
    AnswersByPlan(ApiV3, route.identifier, route.rest, id, again, plan, source, settings, {reply.tag});
  }

  lemma LinkReadBack(rawId: string, request: ImageRequest, plan: Plan, source: Source, settings: Settings)
    requires source.Valid() && Bytes(rawId) && Decoded(rawId).Success? && Legal(request)
    requires EvaluatedOn(InV3(request), source, settings) == Success(plan)
    ensures Bytes(Decoded(rawId).value.path)
    ensures var route := RouteOf(LinkOf(ApiV3, Decoded(rawId).value, plan.CanonicalPath()));
      && route.Image? && route.version == ApiV3 && Bytes(route.identifier)
      && Decoded(route.identifier) == Decoded(rawId) && ParseRequest(route.rest).Success?
      && EvaluatedOn(InV3(ParseRequest(route.rest).value), source, settings) == Success(plan)
  {
    DecodedBytes(rawId);
    CanonicalLinkLeadsBack(rawId, request, source.ifds[0].picture.width, source.ifds[0].picture.height, settings.limits,
                           settings.sqrt);
    LinkRoutes(ApiV3, Decoded(rawId).value, plan);
  }

  lemma LinkRoutes(version: Version, id: Identifier, plan: Plan)
    requires Bytes(id.path) && plan.outW > 0 && plan.outH > 0
    ensures RouteOf(LinkOf(version, id, plan.CanonicalPath()))
         == Route.Image(version, Encoding(id.path), plan.CanonicalPath())
    ensures Bytes(Encoding(id.path))
  {
    EncodingShape(id.path);
    EncodedBytes(id.path);
    CanonicalHasFourSegments(plan);
    RoutesUnder(version, Encoding(id.path), plan.CanonicalPath());
  }

  // Whether the request's canonical text reads back as the same output.
  predicate TextTells(version: Version, rest: string, source: Source, settings: Settings)
    requires source.Valid()
  {
    var s := ParseAs(version, rest);
    s.Success? ==>
      var plan := EvaluatedOn(s.value, source, settings);
      plan.Success? ==> s.value.ReadsBackAlike(plan.value)
  }

  // Asking for the link of a 2.1 reply gives the same bytes where its size reads
  // back alike.
  lemma LinkV2AnswersAlike(rawId: string, rest: string, source: Source, settings: Settings, held: set<Tag>)
    requires source.Valid() && settings.kernels.Sound() && Bytes(rawId)
    requires Answer(ApiV2, rawId, rest, source, settings, held).Served?
    requires TextTells(ApiV2, rest, source, settings)
    ensures var reply := Answer(ApiV2, rawId, rest, source, settings, held);
      var route := RouteOf(reply.link);
      && route.Image? && route.version == ApiV2 && Bytes(route.identifier)
      && var again := Answer(ApiV2, route.identifier, route.rest, source, settings, {});
      again.Served? && (again.bytes, again.format) == (reply.bytes, reply.format)
  {
    ServedStands(ApiV2, rawId, rest, source, settings, held);
    var id, s := Decoded(rawId).value, ParseAs(ApiV2, rest).value;
    var plan := EvaluatedOn(s, source, settings).value;
    LinkV2ReadBack(rawId, rest, source, settings);
    var route := RouteOf(LinkOf(ApiV2, id, s.CanonicalText(plan)));
    var again := ParseAs(ApiV2, route.rest).value;
    var plan2 := EvaluatedOn(again, source, settings).value;
    AnswersByPlan(ApiV2, route.identifier, route.rest, id, again, plan2, source, settings, {});
    SameOutputSameBytes(plan, plan2, source, settings);
  }

  lemma LinkV2ReadBack(rawId: string, rest: string, source: Source, settings: Settings)
    requires source.Valid() && Bytes(rawId) && Decoded(rawId).Success? && ParseAs(ApiV2, rest).Success?
    requires EvaluatedOn(ParseAs(ApiV2, rest).value, source, settings).Success?
    requires ParseAs(ApiV2, rest).value.ReadsBackAlike(EvaluatedOn(ParseAs(ApiV2, rest).value, source, settings).value)
    ensures Bytes(Decoded(rawId).value.path)
    ensures var s := ParseAs(ApiV2, rest).value;
      var plan := EvaluatedOn(s, source, settings).value;
      var route := RouteOf(LinkOf(ApiV2, Decoded(rawId).value, s.CanonicalText(plan)));
      && route.Image? && route.version == ApiV2 && Bytes(route.identifier)
      && Decoded(route.identifier) == Decoded(rawId) && ParseAs(ApiV2, route.rest).Success?
      && var again := EvaluatedOn(ParseAs(ApiV2, route.rest).value, source, settings);
      again.Success? && V2.SameOutput(plan, again.value)
  {
    DecodedBytes(rawId);
    var fullW, fullH := source.ifds[0].picture.width, source.ifds[0].picture.height;
    CanonicalLinkV2Routes(rawId, rest, fullW, fullH, settings.limits, settings.sqrt);
    V2.CanonicalV2Iff(rest, fullW, fullH, settings.limits, settings.sqrt);
    EncodedBytes(Decoded(rawId).value.path);
  }

  // ----- from the path to the pixels -----

  predicate Undamaged(source: Source) {
    source.broken == {} && source.damaged == {}
  }

  // The next smaller picture is at most two thirds as wide.
  predicate Spaced(ifds: seq<Ifd>) {
    |ifds| > 1 ==> 3 * ifds[1].picture.width <= 2 * ifds[0].picture.width
  }

  // The request comes out at the size of its region, turned by whole quarters.
  predicate Unscaled(version: Version, rest: string, source: Source, settings: Settings, turns: nat)
    requires source.Valid()
  {
    var s := ParseAs(version, rest);
    s.Success? &&
    var plan := EvaluatedOn(s.value, source, settings);
    plan.Success? && PlanUnscaled(plan.value, turns)
  }

  predicate PlanUnscaled(plan: Plan, turns: nat) {
    (plan.outW, plan.outH) == (plan.crop.width, plan.crop.height) && plan.degrees.Value() == 90.0 * turns as real
  }

  lemma FullSizeRead(source: Source, plan: Plan)
    requires source.Valid() && OpenError(source.ifds, source.broken).None? && Spaced(source.ifds)
    requires plan.outW == plan.crop.width > 0
    ensures Pyramidal(source.ifds, LevelsOf(source.ifds)) && FullSizeServes(LevelsOf(source.ifds), Needed(plan))
  {
    OpenedIsPyramidal(source);
    FullScale(plan.outW);
    LevelStands(source.ifds, LevelsOf(source.ifds), 0);
    if |source.ifds| > 1 {
      LevelStands(source.ifds, LevelsOf(source.ifds), 1);
    }
    assert WholePart(Needed(plan)) == 1;
  }

  lemma ExecutionShows(source: Source, plan: Plan, settings: Settings, turns: nat) returns (out: Picture)
    requires source.Valid() && settings.kernels.Sound() && OpenError(source.ifds, source.broken).None?
    requires Undamaged(source) && Spaced(source.ifds) && PlanUnscaled(plan, turns)
    requires plan.crop.Inside(source.ifds[0].picture.width, source.ifds[0].picture.height)
    requires Execution(source, plan, settings).Success?
    ensures 1 <= out.channels <= 4
    ensures settings.kernels.encode(Pack(out), plan.format) == Some(Execution(source, plan, settings).value)
    ensures Shows(out, source.ifds[0].picture, plan.crop.x, plan.crop.y, plan.crop.width, plan.crop.height, plan.quality,
                  plan.mirror, turns)
  {
    FullSizeRead(source, plan);
    TiledIsWhole(source.ifds, LevelsOf(source.ifds), |source.ifds| - 1, plan, settings.kernels);
    out := WholePixels(source.ifds[0].picture, plan, settings.kernels, turns);
  }

  // What the bytes of a reply show: for an unscaled request on an undamaged file
  // they are the encoder's, in the format asked for, for a picture whose every
  // pixel is the full image's, from the place in the region that mirror and turns
  // give it, in the colours asked for.
  lemma ServedPixels(version: Version, rawId: string, rest: string, source: Source, settings: Settings, held: set<Tag>,
                     turns: nat)
    returns (out: Picture)
    requires source.Valid() && settings.kernels.Sound() && Bytes(rawId) && Undamaged(source) && Spaced(source.ifds)
    requires Answer(version, rawId, rest, source, settings, held).Served?
    requires Unscaled(version, rest, source, settings, turns)
    ensures 1 <= out.channels <= 4
    ensures var request := ParseAs(version, rest).value.AsV3();
      settings.kernels.encode(Pack(out), request.format)
      == Some(Answer(version, rawId, rest, source, settings, held).bytes)
    ensures var request := ParseAs(version, rest).value.AsV3();
      var crop := EvaluatedOn(ParseAs(version, rest).value, source, settings).value.crop;
      Shows(out, source.ifds[0].picture, crop.x, crop.y, crop.width, crop.height, request.quality,
            request.rotation.mirror, turns)
  {
    ServedStands(version, rawId, rest, source, settings, held);
    var id, s := Decoded(rawId).value, ParseAs(version, rest).value;
    var plan := EvaluatedOn(s, source, settings).value;
    PlanAnswered(version, id, s.CanonicalText(plan), plan, source, settings, held);
    PlanIsRequests(s, source, settings);
    out := ExecutionShows(source, plan, settings, turns);
  }

  lemma PlanAnswered(version: Version, id: Identifier, text: string, plan: Plan, source: Source, settings: Settings,
                     held: set<Tag>)
    requires source.Valid() && settings.kernels.Sound() && OpenError(source.ifds, source.broken).None?
    requires plan.crop.width > 0 && plan.crop.height > 0 && Bytes(id.path)
    requires AnswerPlan(version, id, text, plan, source, settings, held).Served?
    ensures Execution(source, plan, settings) == Success(AnswerPlan(version, id, text, plan, source, settings, held).bytes)
  {
  }

  lemma PlanIsRequests(s: Spelled, source: Source, settings: Settings)
    requires source.Valid() && Legal(s.AsV3()) && EvaluatedOn(s, source, settings).Success?
    ensures var request, plan := s.AsV3(), EvaluatedOn(s, source, settings).value;
      && (plan.quality, plan.format, plan.mirror) == (request.quality, request.format, request.rotation.mirror)
      && plan.crop.Inside(source.ifds[0].picture.width, source.ifds[0].picture.height)
  {
  }

  // ----- revalidation -----

  // What the tags a client holds change: a request answered with bytes and a tag
  // is told that nothing changed exactly when that tag is held, and otherwise
  // answered with those very bytes.
  lemma HeldTagsDecide(version: Version, rawId: string, rest: string, source: Source, settings: Settings,
                       held: set<Tag>)
    requires source.Valid() && settings.kernels.Sound() && Bytes(rawId)
    requires Answer(version, rawId, rest, source, settings, {}).Served?
    ensures var first := Answer(version, rawId, rest, source, settings, {});
      Answer(version, rawId, rest, source, settings, held)
      == if first.tag in held then NotModified(first.tag) else first
  {
    ServedStands(version, rawId, rest, source, settings, {});
    var id, s := Decoded(rawId).value, ParseAs(version, rest).value;
    AnswersByPlan(version, rawId, rest, id, s, EvaluatedOn(s, source, settings).value, source, settings, held);
  }

  // A reply that nothing changed is never given for a tag the client lacks, and
  // its tag is of the identifier asked for and the file as it is now.
  lemma NotModifiedStands(version: Version, rawId: string, rest: string, source: Source, settings: Settings,
                          held: set<Tag>)
    requires source.Valid() && settings.kernels.Sound() && Bytes(rawId)
    requires Answer(version, rawId, rest, source, settings, held).NotModified?
    ensures var tag := Answer(version, rawId, rest, source, settings, held).tag;
      tag in held && tag.sourceVersion == source.version && Success(Identifier(tag.identifier)) == Decoded(rawId)
  {
    ServedStands(version, rawId, rest, source, settings, held);
  }

  // Tags of another version of the file change nothing.
  lemma OldTagsCountForNothing(version: Version, rawId: string, rest: string, source: Source, settings: Settings,
                               held: set<Tag>)
    requires source.Valid() && settings.kernels.Sound() && Bytes(rawId)
    requires forall tag :: tag in held ==> tag.sourceVersion != source.version
    ensures var reply := Answer(version, rawId, rest, source, settings, held);
      !reply.NotModified? && reply == Answer(version, rawId, rest, source, settings, {})
  {
    if Answer(version, rawId, rest, source, settings, held).NotModified? {
      NotModifiedStands(version, rawId, rest, source, settings, held);
    }
  }

  lemma ServedTag(version: Version, rawId: string, rest: string, source: Source, settings: Settings)
    requires source.Valid() && settings.kernels.Sound() && Bytes(rawId)
    requires Answer(version, rawId, rest, source, settings, {}).Served?
    ensures Answer(version, rawId, rest, source, settings, {}).tag.sourceVersion == source.version
  {
  }

  // So once a file is replaced, no tag given before it was leaves a client with
  // the old bytes: it is answered as if it held nothing.
  lemma ReplacedFileIsServedAnew(version: Version, rawId: string, rest: string, other: Version, otherId: string,
                                 tail: string, was: Source, now: Source, settings: Settings)
    requires was.Valid() && now.Valid() && settings.kernels.Sound() && Bytes(rawId) && Bytes(otherId)
    requires Answer(version, rawId, rest, was, settings, {}).Served? && was.version != now.version
    ensures var tag := Answer(version, rawId, rest, was, settings, {}).tag;
      var reply := Answer(other, otherId, tail, now, settings, {tag});
      !reply.NotModified? && reply == Answer(other, otherId, tail, now, settings, {})
  {
    ServedTag(version, rawId, rest, was, settings);
    OldTagsCountForNothing(other, otherId, tail, now, settings, {Answer(version, rawId, rest, was, settings, {}).tag});
  }

  // A client told that nothing changed, for a tag it was given with some bytes,
  // would have been sent those bytes: whenever one of the two requests is of
  // version 3.0, or both read back alike. (Tags.OneTagTwoOutputs is where not.)
  lemma RevalidationSound(version: Version, rawId: string, rest: string, other: Version, otherId: string, tail: string,
                          source: Source, settings: Settings)
    requires source.Valid() && settings.kernels.Sound() && Bytes(rawId) && Bytes(otherId)
    requires Answer(version, rawId, rest, source, settings, {}).Served?
    requires var tag := Answer(version, rawId, rest, source, settings, {}).tag;
      Answer(other, otherId, tail, source, settings, {tag}) == NotModified(tag)
    requires version.ApiV3? || other.ApiV3?
             || (TextTells(version, rest, source, settings) && TextTells(other, tail, source, settings))
    ensures var (given, due) := (Answer(version, rawId, rest, source, settings, {}),
                                 Answer(other, otherId, tail, source, settings, {}));
      due.Served? && (due.bytes, due.format) == (given.bytes, given.format)
  {
    var given := Answer(version, rawId, rest, source, settings, {});
    ServedStands(version, rawId, rest, source, settings, {});
    ServedStands(other, otherId, tail, source, settings, {given.tag});
    var a, b := ParseAs(version, rest).value, ParseAs(other, tail).value;
    var p, q := EvaluatedOn(a, source, settings).value, EvaluatedOn(b, source, settings).value;
    var id, id2 := Decoded(rawId).value, Decoded(otherId).value;
    TagTold(version, id, a.CanonicalText(p), p, other, id2, b.CanonicalText(q), q, source, settings);
    OneTextPlansAgree(version, rest, other, tail, source, settings);
    AnswersByPlan(other, otherId, tail, id2, b, q, source, settings, {});
    SameOutputServed(version, id, a.CanonicalText(p), p, other, id2, b.CanonicalText(q), q, source, settings);
  }

  // And it does mislead: given the bytes of a 2 by 50 output of a 3 by 100 image,
  // a client is told that nothing changed where it asks for 2 by 67.
  lemma RevalidationMisleads(rawId: string, source: Source, settings: Settings)
    requires source.Valid() && settings.kernels.Sound() && Bytes(rawId)
    requires (source.ifds[0].picture.width, source.ifds[0].picture.height) == (3, 100)
    requires settings.limits.width >= 2 && settings.limits.height >= 67 && settings.limits.area >= 134
    requires Answer(ApiV2, rawId, "full/,50/0/default.jpg", source, settings, {}).Served?
    ensures var tag := Answer(ApiV2, rawId, "full/,50/0/default.jpg", source, settings, {}).tag;
      && Answer(ApiV2, rawId, "full/2,/0/default.jpg", source, settings, {tag}) == NotModified(tag)
      && var (a, b) := (ParseAs(ApiV2, "full/,50/0/default.jpg").value, ParseAs(ApiV2, "full/2,/0/default.jpg").value);
      !V2.SameOutput(EvaluatedOn(a, source, settings).value, EvaluatedOn(b, source, settings).value)
  {
    var high, wide := "full/,50/0/default.jpg", "full/2,/0/default.jpg";
    var id := Decoded(rawId).value;
    ServedStands(ApiV2, rawId, high, source, settings, {});
    OneTagTwoOutputs(id.path, source.version, settings.limits, settings.sqrt);
    var b := ParseAs(ApiV2, wide).value;
    var tag := Answer(ApiV2, rawId, high, source, settings, {}).tag;
    AnswersByPlan(ApiV2, rawId, wide, id, b, EvaluatedOn(b, source, settings).value, source, settings, {tag});
  }

  // A tag that was given and is asked with tells the text.
  lemma TagTold(version: Version, id: Identifier, text: string, p: Plan, other: Version, id2: Identifier, text2: string,
                q: Plan, source: Source, settings: Settings)
    requires source.Valid() && settings.kernels.Sound() && OpenError(source.ifds, source.broken).None?
    requires p.crop.width > 0 && p.crop.height > 0 && q.crop.width > 0 && q.crop.height > 0
    requires Bytes(id.path) && Bytes(id2.path)
    requires AnswerPlan(version, id, text, p, source, settings, {}).Served?
    requires var tag := AnswerPlan(version, id, text, p, source, settings, {}).tag;
      AnswerPlan(other, id2, text2, q, source, settings, {tag}) == NotModified(tag)
    ensures text == text2 && id.path == id2.path
  {
    AnswerTag(version, id, text, p, source, settings, {});
    var tag := AnswerPlan(version, id, text, p, source, settings, {}).tag;
    AnswerTag(other, id2, text2, q, source, settings, {tag});
  }

  lemma AnswerTag(version: Version, id: Identifier, text: string, plan: Plan, source: Source, settings: Settings,
                  held: set<Tag>)
    requires source.Valid() && settings.kernels.Sound() && OpenError(source.ifds, source.broken).None?
    requires plan.crop.width > 0 && plan.crop.height > 0 && Bytes(id.path)
    ensures var reply := AnswerPlan(version, id, text, plan, source, settings, held);
      reply.Served? || reply.NotModified? ==> reply.tag == Tag(id.path, source.version, text)
  {
  }

  lemma SameOutputServed(version: Version, id: Identifier, text: string, p: Plan, other: Version, id2: Identifier,
                         text2: string, q: Plan, source: Source, settings: Settings)
    requires source.Valid() && settings.kernels.Sound() && OpenError(source.ifds, source.broken).None?
    requires p.crop.width > 0 && p.crop.height > 0 && V2.SameOutput(p, q)
    requires Bytes(id.path) && Bytes(id2.path)
    requires AnswerPlan(version, id, text, p, source, settings, {}).Served?
    ensures var (given, due) := (AnswerPlan(version, id, text, p, source, settings, {}),
                                 AnswerPlan(other, id2, text2, q, source, settings, {}));
      due.Served? && (due.bytes, due.format) == (given.bytes, given.format)
  {
    SameOutputSameBytes(p, q, source, settings);
  }

  lemma OneTextPlansAgree(version: Version, rest: string, other: Version, tail: string, source: Source, settings: Settings)
    requires source.Valid() && ParseAs(version, rest).Success? && ParseAs(other, tail).Success?
    requires var (a, b) := (ParseAs(version, rest).value, ParseAs(other, tail).value);
      var (p, q) := (EvaluatedOn(a, source, settings), EvaluatedOn(b, source, settings));
      p.Success? && q.Success? && a.CanonicalText(p.value) == b.CanonicalText(q.value)
    requires version.ApiV3? || other.ApiV3?
             || (TextTells(version, rest, source, settings) && TextTells(other, tail, source, settings))
    ensures V2.SameOutput(EvaluatedOn(ParseAs(version, rest).value, source, settings).value,
                          EvaluatedOn(ParseAs(other, tail).value, source, settings).value)
  {
    OneTextOutputs(version, rest, other, tail, source.ifds[0].picture.width, source.ifds[0].picture.height,
                   settings.limits, settings.sqrt);
  }

  // ----- from a path -----

  // One image request, from its path on: answered as the model says, never broken
  // by the server's own doing, and linked to a path that is answered the same.
  method ServePath(path: string, decoder: TiffDecoder, source: Source, settings: Settings, held: set<Tag>)
    returns (reply: Reply)
    requires Bytes(path) && RouteOf(path).Image?
    requires decoder.Valid() && decoder.position == 0 && settings.kernels.Sound()
    requires Reads(decoder, source) && source.Valid()
    modifies decoder
    ensures Bytes(RouteOf(path).identifier)
    ensures var route := RouteOf(path);
      reply == Answer(route.version, route.identifier, route.rest, source, settings, held)
    ensures reply.NotModified? ==> reply.tag in held
    ensures reply.Broken? ==> !Internal(reply.error)
    ensures reply.Served? && RouteOf(path).version.ApiV3? ==>
      && RouteOf(reply.link).Image? && Bytes(RouteOf(reply.link).identifier)
      && Answer(ApiV3, RouteOf(reply.link).identifier, RouteOf(reply.link).rest, source, settings, {}) == reply
  {
    RouteBytes(path);
    reply := ServeRoute(RouteOf(path), decoder, source, settings, held);
  }

  method ServeRoute(route: Route, decoder: TiffDecoder, source: Source, settings: Settings, held: set<Tag>)
    returns (reply: Reply)
    requires route.Image? && Bytes(route.identifier)
    requires decoder.Valid() && decoder.position == 0 && settings.kernels.Sound()
    requires Reads(decoder, source) && source.Valid()
    modifies decoder
    ensures reply == Answer(route.version, route.identifier, route.rest, source, settings, held)
    ensures reply.NotModified? ==> reply.tag in held
    ensures reply.Broken? ==> !Internal(reply.error)
    ensures reply.Served? && route.version.ApiV3? ==>
      && RouteOf(reply.link).Image? && Bytes(RouteOf(reply.link).identifier)
      && Answer(ApiV3, RouteOf(reply.link).identifier, RouteOf(reply.link).rest, source, settings, {}) == reply
  {
    NeverInternal(route.version, route.identifier, route.rest, source, settings, held);
    reply := Serve(route.version, route.identifier, route.rest, decoder, source, settings, held);
    if reply.Served? && route.version.ApiV3? {
      LinkAnswersAlike(route.identifier, route.rest, source, settings, held);
    }
  }

  lemma RouteBytes(path: string)
    requires Bytes(path) && RouteOf(path).Image?
    ensures Bytes(RouteOf(path).identifier)
  {
    ImageRouteSpellsPath(path);
    IdentifierBytes(path, RouteOf(path).version.Mount(), RouteOf(path).identifier, "/", RouteOf(path).rest);
  }

  lemma IdentifierBytes(path: string, before: string, id: string, slash: string, after: string)
    requires Bytes(path) && path == before + (id + slash + after)
    ensures Bytes(id)
  {
    forall i | 0 <= i < |id|
      ensures id[i] as int < 256
    {
      assert path[|before| + i] == id[i];
    }
  }
}
