// The request grammar {region}/{size}/{rotation}/{quality}.{format}: typed
// values, parsers, printers, and the round trip between them.
module Grammar {
  import opened Wrappers
  import opened Text
  import opened Decimals

  datatype Region =
    | Full
    | Square
    | Pixels(x: U32, y: U32, width: U32, height: U32)
    | Percent(left: Decimal, top: Decimal, wide: Decimal, high: Decimal)

  datatype SizeKind =
    | Max
    | Width(w: U32)
    | Height(h: U32)
    | Scaled(percent: Decimal)
    | WidthHeight(w: U32, h: U32)
    | Confined(w: U32, h: U32)

  datatype Size = Size(upscale: bool, kind: SizeKind)

  datatype Rotation = Rotation(mirror: bool, degrees: Decimal)

  datatype Quality = Default | Color | Gray | Bitonal

  datatype Format = Jpg | Tif | Png | Gif | Jp2 | Pdf | Webp

  datatype ImageRequest = ImageRequest(
    region: Region, size: Size, rotation: Rotation, quality: Quality, format: Format)

  datatype Component = InRegion | InSize | InRotation | InQuality | InFormat | InStructure

  datatype ParseError = ParseError(component: Component, input: string)

  // ----- what the grammar admits -----

  predicate LegalRegion(r: Region) {
    match r
    case Full => true
    case Square => true
    case Pixels(_, _, w, h) => w > 0 && h > 0
    case Percent(x, y, w, h) =>
      && x.Normal() && y.Normal() && w.Normal() && h.Normal()
      && x.Value() < 100.0 && y.Value() < 100.0 && w.Value() > 0.0 && h.Value() > 0.0
  }

  predicate LegalSize(s: Size) {
    match s.kind
    case Max => true
    case Width(w) => w > 0
    case Height(h) => h > 0
    case Scaled(n) => n.Normal() && n.Value() > 0.0 && (s.upscale || n.Value() <= 100.0)
    case WidthHeight(w, h) => w > 0 && h > 0
    case Confined(w, h) => w > 0 && h > 0
  }

  predicate LegalRotation(r: Rotation) {
    r.degrees.Normal() && r.degrees.Value() <= 360.0
  }

  predicate Legal(r: ImageRequest) {
    LegalRegion(r.region) && LegalSize(r.size) && LegalRotation(r.rotation)
  }

  // ----- parsers -----

  // parse_u32 followed by the zero check every size and extent gets
  function ParsePositive(s: string): (r: Option<U32>)
    ensures r.Some? ==> r.value > 0
  {
    match ParseU32(s)
    case Some(n) => if n == 0 then None else Some(n)
    case None => None
  }

  function ParsePixels(input: string): (r: Option<Region>)
    ensures r.Some? ==> LegalRegion(r.value)
  {
    var f := Split(input, ',');
    if |f| != 4 then None
    else
      match (ParseU32(f[0]), ParseU32(f[1]), ParsePositive(f[2]), ParsePositive(f[3]))
      case (Some(x), Some(y), Some(w), Some(h)) => Some(Pixels(x, y, w, h))
      case _ => None
  }

  function ParsePercent(rest: string): (r: Option<Region>)
    ensures r.Some? ==> LegalRegion(r.value)
  {
    var f := Split(rest, ',');
    if |f| != 4 then None
    else
      match (ParseDecimal(f[0]), ParseDecimal(f[1]), ParseDecimal(f[2]), ParseDecimal(f[3]))
      case (Some(x), Some(y), Some(w), Some(h)) =>
        if w.Value() <= 0.0 || h.Value() <= 0.0 || x.Value() >= 100.0 || y.Value() >= 100.0
        then None
        else Some(Percent(x, y, w, h))
      case _ => None
  }

  function ParseRegion(input: string): (r: Result<Region, ParseError>)
    ensures r.Success? ==> LegalRegion(r.value)
    ensures r.Failure? ==> r.error == ParseError(InRegion, input)
  {
    if input == "full" then Success(Full)
    else if input == "square" then Success(Square)
    else
      match if "pct:" <= input then ParsePercent(input[4..]) else ParsePixels(input)
      case Some(region) => Success(region)
      case None => Failure(ParseError(InRegion, input))
  }

  function ParsePair(text: string): (r: Option<(U32, U32)>)
    ensures r.Some? ==> r.value.0 > 0 && r.value.1 > 0
  {
    match SplitOnce(text, ',')
    case Some((wt, ht)) =>
      (match (ParsePositive(wt), ParsePositive(ht))
       case (Some(w), Some(h)) => Some((w, h))
       case _ => None)
    case None => None
  }

  // `w,`, `,h` and `w,h`: which sides of the comma are empty decides.
  function ParseDimensions(rest: string): (r: Option<SizeKind>)
    ensures r.Some? ==> forall upscale :: LegalSize(Size(upscale, r.value))
  {
    match SplitOnce(rest, ',')
    case Some((wt, ht)) =>
      if wt == "" && ht == "" then None
      else if ht == "" then
        match ParsePositive(wt)
        case Some(w) => Some(Width(w))
        case None => None
      else if wt == "" then
        match ParsePositive(ht)
        case Some(h) => Some(Height(h))
        case None => None
      else
        (match (ParsePositive(wt), ParsePositive(ht))
         case (Some(w), Some(h)) => Some(WidthHeight(w, h))
         case _ => None)
    case None => None
  }

  function ParseScale(text: string, upscale: bool): (r: Option<SizeKind>)
    ensures r.Some? ==> LegalSize(Size(upscale, r.value))
  {
    match ParseDecimal(text)
    case Some(n) =>
      if n.Value() <= 0.0 || (!upscale && n.Value() > 100.0) then None else Some(Scaled(n))
    case None => None
  }

  // The size parameter after its optional `^`.
  function ParseSizeKind(rest: string, upscale: bool): (r: Option<SizeKind>)
    ensures r.Some? ==> LegalSize(Size(upscale, r.value))
  {
    if rest == "max" then Some(Max)
    else if "pct:" <= rest then ParseScale(rest[4..], upscale)
    else if Starts(rest, '!') then
      match ParsePair(rest[1..])
      case Some((w, h)) => Some(Confined(w, h))
      case None => None
    else ParseDimensions(rest)
  }

  predicate Starts(s: string, c: char) {
    s != "" && s[0] == c
  }

  function ParseSize(input: string): (r: Result<Size, ParseError>)
    ensures r.Success? ==> LegalSize(r.value)
    ensures r.Failure? ==> r.error == ParseError(InSize, input)
  {
    var upscale := Starts(input, '^');
    match ParseSizeKind(if upscale then input[1..] else input, upscale)
    case Some(kind) => Success(Size(upscale, kind))
    case None => Failure(ParseError(InSize, input))
  }

  function ParseRotation(input: string): (r: Result<Rotation, ParseError>)
    ensures r.Success? ==> LegalRotation(r.value)
    ensures r.Failure? ==> r.error == ParseError(InRotation, input)
  {
    var mirror := Starts(input, '!');
    match ParseDecimal(if mirror then input[1..] else input)
    case Some(d) =>
      if d.Value() > 360.0 then Failure(ParseError(InRotation, input)) else Success(Rotation(mirror, d))
    case None => Failure(ParseError(InRotation, input))
  }

  function ParseQuality(input: string): Result<Quality, ParseError> {
    if input == "default" then Success(Default)
    else if input == "color" then Success(Color)
    else if input == "gray" then Success(Gray)
    else if input == "bitonal" then Success(Bitonal)
    else Failure(ParseError(InQuality, input))
  }

  function ParseFormat(input: string): Result<Format, ParseError> {
    if input == "jpg" then Success(Jpg)
    else if input == "tif" then Success(Tif)
    else if input == "png" then Success(Png)
    else if input == "gif" then Success(Gif)
    else if input == "jp2" then Success(Jp2)
    else if input == "pdf" then Success(Pdf)
    else if input == "webp" then Success(Webp)
    else Failure(ParseError(InFormat, input))
  }

  // The four segments and the cut of the last one, before any is interpreted.
  datatype Segments = Segments(region: string, size: string, rotation: string, quality: string, format: string)

  function CutPath(path: string): Result<Segments, ParseError> {
    var segs := Split(path, '/');
    if |segs| != 4 then Failure(ParseError(InStructure, path))
    else
      match RSplitOnce(segs[3], '.')
      case Some((quality, format)) => Success(Segments(segs[0], segs[1], segs[2], quality, format))
      case None => Failure(ParseError(InStructure, path))
  }

  function ParseSegments(s: Segments): (r: Result<ImageRequest, ParseError>)
    ensures r.Success? ==> Legal(r.value)
  {
    match ParseRegion(s.region)
    case Failure(e) => Failure(e)
    case Success(region) =>
      match ParseSize(s.size)
      case Failure(e) => Failure(e)
      case Success(size) =>
        match ParseRotation(s.rotation)
        case Failure(e) => Failure(e)
        case Success(rotation) =>
          match ParseQuality(s.quality)
          case Failure(e) => Failure(e)
          case Success(quality) =>
            match ParseFormat(s.format)
            case Failure(e) => Failure(e)
            case Success(format) => Success(ImageRequest(region, size, rotation, quality, format))
  }

  function ParseRequest(path: string): (r: Result<ImageRequest, ParseError>)
    ensures r.Success? ==> Legal(r.value)
  {
    match CutPath(path)
    case Failure(e) => Failure(e)
    case Success(s) => ParseSegments(s)
  }

  // ----- printers -----

  function Four(a: string, b: string, c: string, d: string): string {
    a + [','] + (b + [','] + (c + [','] + d))
  }

  function PrintRegion(r: Region): string {
    match r
    case Full => "full"
    case Square => "square"
    case Pixels(x, y, w, h) => Four(FromNat(x), FromNat(y), FromNat(w), FromNat(h))
    case Percent(x, y, w, h) =>
      "pct:" + Four(PrintDecimal(x), PrintDecimal(y), PrintDecimal(w), PrintDecimal(h))
  }

  function PrintSizeKind(k: SizeKind): string {
    match k
    case Max => "max"
    case Width(w) => FromNat(w) + "," + ""
    case Height(h) => "" + "," + FromNat(h)
    case Scaled(n) => "pct:" + PrintDecimal(n)
    case WidthHeight(w, h) => FromNat(w) + "," + FromNat(h)
    case Confined(w, h) => "!" + (FromNat(w) + "," + FromNat(h))
  }

  function PrintSize(s: Size): string {
    (if s.upscale then "^" else "") + PrintSizeKind(s.kind)
  }

  function PrintRotation(r: Rotation): string {
    (if r.mirror then "!" else "") + PrintDecimal(r.degrees)
  }

  function PrintQuality(q: Quality): string {
    match q
    case Default => "default"
    case Color => "color"
    case Gray => "gray"
    case Bitonal => "bitonal"
  }

  function PrintFormat(f: Format): string {
    match f
    case Jpg => "jpg"
    case Tif => "tif"
    case Png => "png"
    case Gif => "gif"
    case Jp2 => "jp2"
    case Pdf => "pdf"
    case Webp => "webp"
  }

  function JoinPath(region: string, size: string, rotation: string, q: Quality, f: Format): string {
    Join([region, size, rotation, PrintQuality(q) + "." + PrintFormat(f)], '/')
  }

  function PrintRequest(r: ImageRequest): string {
    JoinPath(PrintRegion(r.region), PrintSize(r.size), PrintRotation(r.rotation), r.quality, r.format)
  }

  // ----- parse undoes print, component by component -----

  lemma SplitTwo(c: string, d: string)
    requires ',' !in c && ',' !in d
    ensures Split(c + [','] + d, ',') == [c, d]
  {
    SplitStep(c, d, ',');
    SplitWhole(d, ',');
  }

  lemma SplitThree(b: string, c: string, d: string)
    requires ',' !in b && ',' !in c && ',' !in d
    ensures Split(b + [','] + (c + [','] + d), ',') == [b, c, d]
  {
    SplitTwo(c, d);
    SplitStep(b, c + [','] + d, ',');
  }

  lemma SplitFour(a: string, b: string, c: string, d: string)
    requires ',' !in a && ',' !in b && ',' !in c && ',' !in d
    ensures var f := Split(Four(a, b, c, d), ',');
      |f| == 4 && f[0] == a && f[1] == b && f[2] == c && f[3] == d
  {
    SplitThree(b, c, d);
    SplitOneMore(a, b + [','] + (c + [','] + d), [b, c, d]);
  }

  lemma SplitOneMore(a: string, rest: string, parts: seq<string>)
    requires ',' !in a && Split(rest, ',') == parts
    ensures Split(a + [','] + rest, ',') == [a] + parts
  {
    SplitStep(a, rest, ',');
  }

  lemma PositiveRoundTrip(n: U32)
    requires n > 0
    ensures ParsePositive(FromNat(n)) == Some(n)
  {
    U32RoundTrip(n);
  }

  lemma PixelsRoundTrip(x: U32, y: U32, w: U32, h: U32)
    requires w > 0 && h > 0
    ensures ParsePixels(PrintRegion(Pixels(x, y, w, h))) == Some(Pixels(x, y, w, h))
  {
    SplitFour(FromNat(x), FromNat(y), FromNat(w), FromNat(h));
    U32RoundTrip(x);
    U32RoundTrip(y);
    PositiveRoundTrip(w);
    PositiveRoundTrip(h);
  }

  lemma PercentRoundTrip(x: Decimal, y: Decimal, w: Decimal, h: Decimal)
    requires LegalRegion(Percent(x, y, w, h))
    ensures ParsePercent(Four(PrintDecimal(x), PrintDecimal(y), PrintDecimal(w), PrintDecimal(h)))
         == Some(Percent(x, y, w, h))
  {
    DecimalShape(x);
    DecimalShape(y);
    DecimalShape(w);
    DecimalShape(h);
    SplitFour(PrintDecimal(x), PrintDecimal(y), PrintDecimal(w), PrintDecimal(h));
    DecimalRoundTrip(x);
    DecimalRoundTrip(y);
    DecimalRoundTrip(w);
    DecimalRoundTrip(h);
  }

  // Which of the region forms a text is read as.
  lemma ReadAsPixels(s: string)
    requires s != "" && IsDigit(s[0]) && ParsePixels(s).Some?
    ensures ParseRegion(s) == Success(ParsePixels(s).value)
  {
    var full, square, pct := "full", "square", "pct:";
    assert full[0] == 'f' && square[0] == 's' && pct[0] == 'p';
  }

  lemma ReadAsPercent(s: string)
    requires ParsePercent(s).Some?
    ensures ParseRegion("pct:" + s) == Success(ParsePercent(s).value)
  {
    var t, full, square := "pct:" + s, "full", "square";
    assert t[0] == 'p' && t[4..] == s && full[0] == 'f' && square[0] == 's';
  }

  lemma RegionRoundTrip(r: Region)
    requires LegalRegion(r)
    ensures ParseRegion(PrintRegion(r)) == Success(r)
  {
    match r
    case Full =>
    case Square =>
    case Pixels(x, y, w, h) =>
      PixelsRoundTrip(x, y, w, h);
      assert PrintRegion(r)[0] == FromNat(x)[0];
      ReadAsPixels(PrintRegion(r));
    case Percent(x, y, w, h) =>
      PercentRoundTrip(x, y, w, h);
      ReadAsPercent(Four(PrintDecimal(x), PrintDecimal(y), PrintDecimal(w), PrintDecimal(h)));
  }

  lemma DimensionsRoundTrip(k: SizeKind)
    requires LegalSize(Size(true, k)) && (k.Width? || k.Height? || k.WidthHeight?)
    ensures ParseDimensions(PrintSizeKind(k)) == Some(k)
  {
    match k
    case Width(w) =>
      SplitOnceAt(FromNat(w), "", ',');
      PositiveRoundTrip(w);
    case Height(h) =>
      SplitOnceAt("", FromNat(h), ',');
      PositiveRoundTrip(h);
    case WidthHeight(w, h) =>
      SplitOnceAt(FromNat(w), FromNat(h), ',');
      PositiveRoundTrip(w);
      PositiveRoundTrip(h);
  }

  lemma ConfinedRoundTrip(w: U32, h: U32, upscale: bool)
    requires w > 0 && h > 0
    ensures ParseSizeKind(PrintSizeKind(Confined(w, h)), upscale) == Some(Confined(w, h))
  {
    var pair := FromNat(w) + "," + FromNat(h);
    SplitOnceAt(FromNat(w), FromNat(h), ',');
    PositiveRoundTrip(w);
    PositiveRoundTrip(h);
    assert ParsePair(pair) == Some((w, h));
    assert ("!" + pair)[0] == '!' && ("!" + pair)[1..] == pair;
  }

  lemma ScaledRoundTrip(n: Decimal, upscale: bool)
    requires LegalSize(Size(upscale, Scaled(n)))
    ensures ParseSizeKind(PrintSizeKind(Scaled(n)), upscale) == Some(Scaled(n))
  {
    var text := PrintDecimal(n);
    DecimalRoundTrip(n);
    assert ("pct:" + text)[4..] == text && ("pct:" + text)[0] == 'p';
  }

  // A text that begins with neither `m`, `p` nor `!` is read as dimensions.
  lemma DimensionsForm(s: string, upscale: bool)
    requires s != "" && s[0] !in "mp!"
    ensures ParseSizeKind(s, upscale) == ParseDimensions(s)
  {
  }

  lemma SizeKindRoundTrip(k: SizeKind, upscale: bool)
    requires LegalSize(Size(upscale, k))
    ensures ParseSizeKind(PrintSizeKind(k), upscale) == Some(k)
    ensures PrintSizeKind(k) != "" && PrintSizeKind(k)[0] != '^'
  {
    var s := PrintSizeKind(k);
    match k
    case Max =>
    case Scaled(n) => ScaledRoundTrip(n, upscale);
    case Confined(w, h) => ConfinedRoundTrip(w, h, upscale);
    case Height(h) =>
      assert s[0] == ',';
      DimensionsRoundTrip(k);
      DimensionsForm(s, upscale);
    case _ =>
      assert IsDigit(s[0]);
      DimensionsRoundTrip(k);
      DimensionsForm(s, upscale);
  }

  lemma SizeRoundTrip(s: Size)
    requires LegalSize(s)
    ensures ParseSize(PrintSize(s)) == Success(s)
  {
    SizeKindRoundTrip(s.kind, s.upscale);
    var t := PrintSize(s);
    if s.upscale {
      assert t[0] == '^' && t[1..] == PrintSizeKind(s.kind);
    } else {
      assert t == PrintSizeKind(s.kind);
    }
  }

  lemma RotationRoundTrip(r: Rotation)
    requires LegalRotation(r)
    ensures ParseRotation(PrintRotation(r)) == Success(r)
  {
    DecimalRoundTrip(r.degrees);
    MarkShows(r.mirror, r.degrees);
  }

  lemma MarkShows(mirror: bool, d: Decimal)
    ensures var t := PrintRotation(Rotation(mirror, d));
      Starts(t, '!') == mirror && (if mirror then t[1..] else t) == PrintDecimal(d)
  {
    DecimalShape(d);
  }

  lemma QualityFormatShape(q: Quality, f: Format)
    ensures ParseQuality(PrintQuality(q)) == Success(q)
    ensures ParseFormat(PrintFormat(f)) == Success(f)
    ensures '.' !in PrintFormat(f)
    ensures '/' !in PrintQuality(q) + "." + PrintFormat(f)
  {
  }

  lemma FourNoSlash(a: string, b: string, c: string, d: string)
    requires '/' !in a && '/' !in b && '/' !in c && '/' !in d
    ensures '/' !in Four(a, b, c, d)
  {
  }

  lemma RegionNoSlash(r: Region)
    ensures '/' !in PrintRegion(r)
  {
    match r
    case Full =>
    case Square =>
    case Pixels(x, y, w, h) =>
      FourNoSlash(FromNat(x), FromNat(y), FromNat(w), FromNat(h));
    case Percent(x, y, w, h) =>
      DecimalShape(x);
      DecimalShape(y);
      DecimalShape(w);
      DecimalShape(h);
      FourNoSlash(PrintDecimal(x), PrintDecimal(y), PrintDecimal(w), PrintDecimal(h));
  }

  lemma SizeNoSlash(s: Size)
    ensures '/' !in PrintSize(s)
  {
    match s.kind
    case Scaled(n) => DecimalShape(n);
    case _ =>
  }

  lemma RotationNoSlash(r: Rotation)
    ensures '/' !in PrintRotation(r)
  {
    DecimalShape(r.degrees);
  }

  // Slash-free segments come back from the path they were joined into.
  lemma CutJoined(region: string, size: string, rotation: string, q: Quality, f: Format)
    requires '/' !in region && '/' !in size && '/' !in rotation
    ensures CutPath(JoinPath(region, size, rotation, q, f))
         == Success(Segments(region, size, rotation, PrintQuality(q), PrintFormat(f)))
    ensures Split(JoinPath(region, size, rotation, q, f), '/')
         == [region, size, rotation, PrintQuality(q) + "." + PrintFormat(f)]
  {
    QualityFormatShape(q, f);
    SplitJoin([region, size, rotation, PrintQuality(q) + "." + PrintFormat(f)], '/');
    RSplitOnceAt(PrintQuality(q), PrintFormat(f), '.');
  }

  // Slash-free components with one path are the same components.
  lemma JoinInjective(r: string, s: string, t: string, q: Quality, f: Format,
                      u: string, v: string, w: string, p: Quality, g: Format)
    requires '/' !in r && '/' !in s && '/' !in t && '/' !in u && '/' !in v && '/' !in w
    requires JoinPath(r, s, t, q, f) == JoinPath(u, v, w, p, g)
    ensures r == u && s == v && t == w && q == p && f == g
  {
    CutJoined(r, s, t, q, f);
    CutJoined(u, v, w, p, g);
    QualityFormatShape(q, f);
    QualityFormatShape(p, g);
  }

  // Any region and size text that parse make a path that parses.
  lemma JoinedParses(region: Region, size: string, parsed: Size, rotation: Rotation, q: Quality, f: Format)
    requires LegalRegion(region) && LegalRotation(rotation)
    requires '/' !in size && ParseSize(size) == Success(parsed)
    ensures ParseRequest(JoinPath(PrintRegion(region), size, PrintRotation(rotation), q, f))
         == Success(ImageRequest(region, parsed, rotation, q, f))
  {
    RegionNoSlash(region);
    RotationNoSlash(rotation);
    CutJoined(PrintRegion(region), size, PrintRotation(rotation), q, f);
    RegionRoundTrip(region);
    RotationRoundTrip(rotation);
    QualityFormatShape(q, f);
  }

  // ----- the whole request -----

  // Parse undoes print for every legal request.
  lemma RequestRoundTrip(r: ImageRequest)
    requires Legal(r)
    ensures ParseRequest(PrintRequest(r)) == Success(r)
  {
    SizeNoSlash(r.size);
    SizeRoundTrip(r.size);
    JoinedParses(r.region, PrintSize(r.size), r.size, r.rotation, r.quality, r.format);
  }

  // Two legal requests with one spelling are one request.
  lemma PrintInjective(a: ImageRequest, b: ImageRequest)
    requires Legal(a) && Legal(b) && PrintRequest(a) == PrintRequest(b)
    ensures a == b
  {
    RequestRoundTrip(a);
    RequestRoundTrip(b);
  }

  // Whatever parses prints to a spelling that parses to the same request and
  // prints as itself: leading zeros and trailing fraction zeros are gone.
  lemma PrintIsCanonical(path: string)
    requires ParseRequest(path).Success?
    ensures var printed := PrintRequest(ParseRequest(path).value);
      ParseRequest(printed) == ParseRequest(path)
      && PrintRequest(ParseRequest(printed).value) == printed
  {
    RequestRoundTrip(ParseRequest(path).value);
  }
}
