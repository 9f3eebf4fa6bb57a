// The router, and the links the server emits: each leads back to itself.
module Route {
  import opened Wrappers
  import opened Text
  import opened Decimals
  import opened Grammar
  import opened Eval
  import opened Ident
  import V2
  import Canonical

  datatype Version = ApiV2 | ApiV3 {
    // The path prefix the version is routed and linked under.
    function Mount(): string {
      if ApiV2? then "/iiif/2/" else "/iiif/3/"
    }
  }

  datatype Route =
    | Health
    | Metrics
    | BaseRedirect(version: Version, identifier: string)
    | InfoJson(version: Version, identifier: string)
    | Image(version: Version, identifier: string, rest: string)
    | NotRouted

  function RouteUnder(version: Version, rest: string): Route {
    var segments := Split(rest, '/');
    if |segments| == 1 && segments[0] != "" then BaseRedirect(version, segments[0])
    else if |segments| == 2 && segments[1] == "info.json" then InfoJson(version, segments[0])
    else if |segments| == 5 then
      IdentifierIsPrefix(rest);
      Image(version, segments[0], rest[|segments[0]| + 1..])
    else NotRouted
  }

  function RouteOf(path: string): Route {
    if path == "/healthz" then Health
    else if path == "/metrics" then Metrics
    else
      match StripPrefix(path, ApiV3.Mount())
      case Some(rest) => RouteUnder(ApiV3, rest)
      case None =>
        match StripPrefix(path, ApiV2.Mount())
        case Some(rest) => RouteUnder(ApiV2, rest)
        case None => NotRouted
  }

  lemma IdentifierIsPrefix(rest: string)
    requires |Split(rest, '/')| > 1
    ensures var id := Split(rest, '/')[0];
      |id| < |rest| && rest == id + "/" + rest[|id| + 1..] && '/' !in id
  {
    var i := Find(rest, '/');
    assert Split(rest, '/')[0] == rest[..i];
    assert rest == rest[..i] + "/" + rest[i + 1..];
  }

  lemma ImageUnderSpells(version: Version, rest: string)
    requires RouteUnder(version, rest).Image?
    ensures var r := RouteUnder(version, rest);
      r.version == version && rest == r.identifier + "/" + r.rest && '/' !in r.identifier
  {
    IdentifierIsPrefix(rest);
  }

  // The router loses nothing: an image route's parts spell the path again, and
  // its identifier is one segment.
  lemma ImageRouteSpellsPath(path: string)
    requires RouteOf(path).Image?
    ensures var r := RouteOf(path);
      path == r.version.Mount() + (r.identifier + "/" + r.rest) && '/' !in r.identifier
  {
    var version := if StripPrefix(path, ApiV3.Mount()).Some? then ApiV3 else ApiV2;
    var rest := StripPrefix(path, version.Mount()).value;
    ImageUnderSpells(version, rest);
    assert path == version.Mount() + rest;
  }

  lemma RouteWithMount(version: Version, rest: string)
    ensures RouteOf(version.Mount() + rest) == RouteUnder(version, rest)
  {
    var path := version.Mount() + rest;
    assert path[1] == 'i';
    StripOtherPrefix(path, "/healthz", 1);
    StripOtherPrefix(path, "/metrics", 1);
    StripOwnPrefix(version.Mount(), rest);
    if version.ApiV2? {
      assert path[6] == '2' && ApiV3.Mount()[6] == '3';
      StripOtherPrefix(path, ApiV3.Mount(), 6);
    }
  }

  lemma CutIdentifier(id: string, tail: string)
    requires '/' !in id
    ensures var rest := id + "/" + tail;
      Split(rest, '/') == [id] + Split(tail, '/') && rest[|id| + 1..] == tail
  {
    SplitStep(id, tail, '/');
  }

  lemma FiveSegments(version: Version, rest: string)
    requires |Split(rest, '/')| == 5
    ensures |Split(rest, '/')[0]| < |rest|
    ensures RouteUnder(version, rest) == Image(version, Split(rest, '/')[0], rest[|Split(rest, '/')[0]| + 1..])
  {
    IdentifierIsPrefix(rest);
  }

  lemma UnderImage(version: Version, id: string, tail: string)
    requires '/' !in id && |Split(tail, '/')| == 4
    ensures RouteUnder(version, id + "/" + tail) == Image(version, id, tail)
  {
    CutIdentifier(id, tail);
    FiveSegments(version, id + "/" + tail);
  }

  lemma UnderInfo(version: Version, id: string)
    requires '/' !in id
    ensures RouteUnder(version, id + "/" + "info.json") == InfoJson(version, id)
  {
    InfoJoined(id, "info.json");
  }

  lemma InfoJoined(id: string, tail: string)
    requires '/' !in id && '/' !in tail
    ensures Split(id + "/" + tail, '/') == [id, tail]
  {
    SplitStep(id, tail, '/');
    SplitWhole(tail, '/');
  }

  // An encoded identifier and a slash-separated tail are cut apart again.
  lemma RoutesUnder(version: Version, id: string, tail: string)
    requires '/' !in id
    ensures |Split(tail, '/')| == 4 ==>
      RouteOf(version.Mount() + (id + "/" + tail)) == Image(version, id, tail)
    ensures tail == "info.json" ==>
      RouteOf(version.Mount() + (id + "/" + tail)) == InfoJson(version, id)
  {
    RouteWithMount(version, id + "/" + tail);
    if |Split(tail, '/')| == 4 {
      UnderImage(version, id, tail);
    }
    UnderInfo(version, id);
  }

  // ----- the router, form by form -----

  lemma RouteFrom(path: string)
    requires !RouteOf(path).Health? && !RouteOf(path).Metrics? && !RouteOf(path).NotRouted?
    ensures var version := RouteOf(path).version;
      version.Mount() <= path && RouteOf(path) == RouteUnder(version, path[|version.Mount()|..])
      && path == version.Mount() + path[|version.Mount()|..]
  {
  }

  // A path below a version's prefix.
  predicate Below(path: string, version: Version, rest: string) {
    path == (match version case ApiV2 => "/iiif/2/" case ApiV3 => "/iiif/3/") + rest
  }

  lemma BelowMount(path: string, version: Version, rest: string)
    ensures Below(path, version, rest) <==> path == version.Mount() + rest
  {
  }

  lemma ServiceRouteIff(path: string)
    ensures RouteOf(path) == Health <==> path == "/healthz"
    ensures RouteOf(path) == Metrics <==> path == "/metrics"
  {
  }

  // A path is an image request exactly when it is a version's prefix, one
  // segment, and four more.
  lemma ImageRouteIff(path: string, version: Version, id: string, rest: string)
    ensures RouteOf(path) == Image(version, id, rest)
       <==> '/' !in id && |Split(rest, '/')| == 4 && Below(path, version, id + "/" + rest)
  {
    BelowMount(path, version, id + "/" + rest);
    if RouteOf(path) == Image(version, id, rest) {
      RouteFrom(path);
      ImageUnderSpells(version, path[|version.Mount()|..]);
      CutIdentifier(id, rest);
    }
    if '/' !in id && |Split(rest, '/')| == 4 && path == version.Mount() + (id + "/" + rest) {
      RoutesUnder(version, id, rest);
    }
  }

  // A path asks for image information exactly when it is a prefix, one segment
  // and info.json.
  lemma InfoRouteIff(path: string, version: Version, id: string)
    ensures RouteOf(path) == InfoJson(version, id)
       <==> '/' !in id && Below(path, version, id + "/" + "info.json")
  {
    BelowMount(path, version, id + "/" + "info.json");
    if RouteOf(path) == InfoJson(version, id) {
      RouteFrom(path);
      InfoUnderSpells(version, path[|version.Mount()|..]);
    }
    if '/' !in id && path == version.Mount() + (id + "/" + "info.json") {
      RoutesUnder(version, id, "info.json");
    }
  }

  lemma InfoUnderSpells(version: Version, rest: string)
    requires RouteUnder(version, rest).InfoJson?
    ensures '/' !in RouteUnder(version, rest).identifier
    ensures rest == RouteUnder(version, rest).identifier + "/" + "info.json"
  {
    JoinSplit(rest, '/');
    assert Join(Split(rest, '/'), '/') == Split(rest, '/')[0] + ['/'] + Split(rest, '/')[1];
  }

  // A path is redirected exactly when it is a prefix and one segment, not empty.
  lemma RedirectIff(path: string, version: Version, id: string)
    ensures RouteOf(path) == BaseRedirect(version, id)
       <==> '/' !in id && id != "" && Below(path, version, id)
  {
    BelowMount(path, version, id);
    if RouteOf(path) == BaseRedirect(version, id) {
      RouteFrom(path);
      JoinSplit(path[|version.Mount()|..], '/');
    }
    if '/' !in id && id != "" && path == version.Mount() + id {
      RouteWithMount(version, id);
      SplitWhole(id, '/');
    }
  }

  // ----- the links -----

  // The redirect of a bare identifier names its own info.json.
  lemma RedirectLeadsToInfo(version: Version, raw: string)
    requires Bytes(raw) && Decoded(raw).Success?
    ensures Bytes(Decoded(raw).value.path)
    ensures var id := Decoded(raw).value;
      var location := version.Mount() + (Encoding(id.path) + "/" + "info.json");
      RouteOf(location) == InfoJson(version, Encoding(id.path)) && Decoded(Encoding(id.path)) == Success(id)
  {
    IdentifierRoundTrip(raw);
    EncodingShape(Decoded(raw).value.path);
    RoutesUnder(version, Encoding(Decoded(raw).value.path), "info.json");
  }

  lemma CanonicalHasFourSegments(plan: Plan)
    requires plan.outW > 0 && plan.outH > 0
    ensures |Split(plan.CanonicalPath(), '/')| == 4
  {
    Canonical.CanonicalSizeParses(plan);
    RegionNoSlash(plan.CanonicalRegion());
    RotationNoSlash(Rotation(plan.mirror, plan.degrees));
    CutJoined(PrintRegion(plan.CanonicalRegion()), plan.CanonicalSize(),
              PrintRotation(Rotation(plan.mirror, plan.degrees)), plan.quality, plan.format);
  }

  // The canonical link of an image response routes to the image service, names
  // the same identifier, and evaluates to the very plan it was printed from.
  lemma CanonicalLinkLeadsBack(raw: string, request: ImageRequest, fullW: U32, fullH: U32, limits: Limits,
                               sqrt: real -> real)
    requires Bytes(raw) && Decoded(raw).Success?
    requires Legal(request) && fullW > 0 && fullH > 0
    requires Evaluate(request, fullW, fullH, limits, sqrt).Success?
    ensures Bytes(Decoded(raw).value.path)
    ensures var id := Decoded(raw).value;
      var plan := Evaluate(request, fullW, fullH, limits, sqrt).value;
      var link := ApiV3.Mount() + (Encoding(id.path) + "/" + plan.CanonicalPath());
      var route := RouteOf(link);
      && route.Image? && route.version == ApiV3 && Decoded(route.identifier) == Success(id)
      && ParseRequest(route.rest).Success?
      && Evaluate(ParseRequest(route.rest).value, fullW, fullH, limits, sqrt) == Success(plan)
  {
    var id := Decoded(raw).value;
    var plan := Evaluate(request, fullW, fullH, limits, sqrt).value;
    IdentifierRoundTrip(raw);
    EncodingShape(id.path);
    CanonicalHasFourSegments(plan);
    RoutesUnder(ApiV3, Encoding(id.path), plan.CanonicalPath());
    Canonical.CanonicalFixedPoint(request, fullW, fullH, limits, sqrt);
  }

  // The 2.1 canonical link reaches the 2.1 service and the same identifier, and
  // is read there as the request it spells.
  lemma CanonicalLinkV2Routes(raw: string, path: string, fullW: U32, fullH: U32, limits: Limits, sqrt: real -> real)
    requires Bytes(raw) && Decoded(raw).Success?
    requires V2.ParseRequestV2(path).Success? && fullW > 0 && fullH > 0
    requires Evaluate(V2.ParseRequestV2(path).value.asV3, fullW, fullH, limits, sqrt).Success?
    ensures Bytes(Decoded(raw).value.path)
    ensures var id := Decoded(raw).value;
      var v2 := V2.ParseRequestV2(path).value;
      var plan := Evaluate(v2.asV3, fullW, fullH, limits, sqrt).value;
      var canonical := V2.CanonicalPathV2(plan, v2);
      var route := RouteOf(ApiV2.Mount() + (Encoding(id.path) + "/" + canonical));
      && route == Image(ApiV2, Encoding(id.path), canonical) && Decoded(route.identifier) == Success(id)
      && V2.ParseRequestV2(route.rest).Success?
      && V2.ParseRequestV2(route.rest).value.asV3 == V2.SpelledRequest(plan, v2)
  {
    var v2 := V2.ParseRequestV2(path).value;
    var plan := Evaluate(v2.asV3, fullW, fullH, limits, sqrt).value;
    IdentifierRoundTrip(raw);
    EncodingShape(Decoded(raw).value.path);
    V2.RereadIs(path, fullW, fullH, limits, sqrt);
    RoutesUnder(ApiV2, Encoding(Decoded(raw).value.path), V2.CanonicalPathV2(plan, v2));
  }
}
