// The request grammar as a language: which texts spell which request, and that
// the parsers read exactly those.
module Spelling {
  import opened Wrappers
  import opened Text
  import opened Decimals
  import opened Grammar

  // ----- the language -----

  ghost predicate SpellsPixels(a: string, b: string, c: string, d: string, r: Region) {
    r.Pixels? && SpellsNat(a, r.x) && SpellsNat(b, r.y) && SpellsNat(c, r.width) && SpellsNat(d, r.height)
  }

  ghost predicate SpellsPercent(a: string, b: string, c: string, d: string, r: Region) {
    && r.Percent? && SpellsDecimal(a, r.left) && SpellsDecimal(b, r.top)
    && SpellsDecimal(c, r.wide) && SpellsDecimal(d, r.high)
  }

  ghost predicate SpellsRegion(s: string, r: Region) {
    match r
    case Full => s == "full"
    case Square => s == "square"
    case Pixels(_, _, _, _) => exists a, b, c, d :: s == Four(a, b, c, d) && SpellsPixels(a, b, c, d, r)
    case Percent(_, _, _, _) => exists a, b, c, d :: s == "pct:" + Four(a, b, c, d) && SpellsPercent(a, b, c, d, r)
  }

  ghost predicate SpellsPair(s: string, w: U32, h: U32) {
    exists a, b :: s == a + [','] + b && SpellsNat(a, w) && SpellsNat(b, h)
  }

  // A size after its `^`.
  ghost predicate SpellsKind(s: string, k: SizeKind) {
    match k
    case Max => s == "max"
    case Width(w) => exists a :: s == a + [','] && SpellsNat(a, w)
    case Height(h) => exists b :: s == [','] + b && SpellsNat(b, h)
    case Scaled(n) => exists a :: s == "pct:" + a && SpellsDecimal(a, n)
    case WidthHeight(w, h) => SpellsPair(s, w, h)
    case Confined(w, h) => exists p :: s == "!" + p && SpellsPair(p, w, h)
  }

  // A text behind its mark, if it has one.
  function Marked(flag: bool, mark: char, t: string): string {
    if flag then [mark] + t else t
  }

  ghost predicate SpellsSize(s: string, z: Size) {
    exists t :: s == Marked(z.upscale, '^', t) && SpellsKind(t, z.kind)
  }

  ghost predicate SpellsRotation(s: string, r: Rotation) {
    exists t :: s == Marked(r.mirror, '!', t) && SpellsDecimal(t, r.degrees)
  }

  lemma MarkTaken(s: string, mark: char)
    ensures s == Marked(Starts(s, mark), mark, if Starts(s, mark) then s[1..] else s)
  {
  }

  // ----- what is cut at commas -----

  lemma NatClean(s: string, n: nat)
    requires SpellsNat(s, n)
    ensures s != "" && IsDigit(s[0]) && AllDigits(s) && ',' !in s && '/' !in s
  {
    SpelledIsNumber(s, n);
  }

  lemma DecimalClean(s: string, d: Decimal)
    requires SpellsDecimal(s, d)
    ensures s != "" && IsDigit(s[0]) && ',' !in s && '/' !in s
  {
    if whole, frac :| SpellsPoint(s, whole, frac, d) {
      assert s[0] == whole[0];
    }
  }

  lemma PositiveIff(s: string, n: U32)
    ensures ParsePositive(s) == Some(n) <==> n > 0 && SpellsNat(s, n)
  {
    ParseU32Iff(s, n);
  }

  // Four pieces without commas, and the text they were cut from.
  lemma FourOfSplit(s: string)
    requires |Split(s, ',')| == 4
    ensures var f := Split(s, ','); s == Four(f[0], f[1], f[2], f[3])
  {
    var f := Split(s, ',');
    JoinSplit(s, ',');
    JoinOfFour(f[0], f[1], f[2], f[3]);
    assert f == [f[0], f[1], f[2], f[3]];
  }

  lemma JoinOfFour(a: string, b: string, c: string, d: string)
    ensures Join([a, b, c, d], ',') == Four(a, b, c, d)
  {
    var four, three, two := [a, b, c, d], [b, c, d], [c, d];
    assert four[1..] == three && three[1..] == two && two[1..] == [d];
    assert Join(two, ',') == c + [','] + d;
    assert Join(three, ',') == b + [','] + Join(two, ',');
    assert Join(four, ',') == a + [','] + Join(three, ',');
  }

  // ----- regions -----

  lemma PixelsSound(s: string)
    requires ParsePixels(s).Some?
    ensures SpellsRegion(s, ParsePixels(s).value)
  {
    var f, r := Split(s, ','), ParsePixels(s).value;
    FourOfSplit(s);
    ParseU32Iff(f[0], r.x);
    ParseU32Iff(f[1], r.y);
    PositiveIff(f[2], r.width);
    PositiveIff(f[3], r.height);
    assert SpellsPixels(f[0], f[1], f[2], f[3], r);
  }

  lemma PixelsComplete(s: string, r: Region)
    requires LegalRegion(r) && r.Pixels? && SpellsRegion(s, r)
    ensures ParsePixels(s) == Some(r) && s != "" && IsDigit(s[0])
  {
    var a, b, c, d :| s == Four(a, b, c, d) && SpellsPixels(a, b, c, d, r);
    NatClean(a, r.x);
    NatClean(b, r.y);
    NatClean(c, r.width);
    NatClean(d, r.height);
    SplitFour(a, b, c, d);
    ParseU32Iff(a, r.x);
    ParseU32Iff(b, r.y);
    PositiveIff(c, r.width);
    PositiveIff(d, r.height);
  }

  lemma PercentSound(s: string)
    requires ParsePercent(s).Some?
    ensures SpellsRegion("pct:" + s, ParsePercent(s).value)
  {
    var f, r := Split(s, ','), ParsePercent(s).value;
    FourOfSplit(s);
    ParseDecimalIff(f[0], r.left);
    ParseDecimalIff(f[1], r.top);
    ParseDecimalIff(f[2], r.wide);
    ParseDecimalIff(f[3], r.high);
    assert SpellsPercent(f[0], f[1], f[2], f[3], r);
  }

  lemma PercentComplete(a: string, b: string, c: string, d: string, r: Region)
    requires LegalRegion(r) && SpellsPercent(a, b, c, d, r)
    ensures ParsePercent(Four(a, b, c, d)) == Some(r)
  {
    DecimalClean(a, r.left);
    DecimalClean(b, r.top);
    DecimalClean(c, r.wide);
    DecimalClean(d, r.high);
    SplitFour(a, b, c, d);
    ParseDecimalIff(a, r.left);
    ParseDecimalIff(b, r.top);
    ParseDecimalIff(c, r.wide);
    ParseDecimalIff(d, r.high);
  }

  lemma RegionSound(s: string)
    requires ParseRegion(s).Success?
    ensures SpellsRegion(s, ParseRegion(s).value)
  {
    if s != "full" && s != "square" {
      if "pct:" <= s {
        PercentSound(s[4..]);
        assert "pct:" + s[4..] == s && ParseRegion(s).value == ParsePercent(s[4..]).value;
      } else {
        PixelsSound(s);
        assert ParseRegion(s).value == ParsePixels(s).value;
      }
    }
  }

  lemma RegionComplete(s: string, r: Region)
    requires LegalRegion(r) && SpellsRegion(s, r)
    ensures ParseRegion(s) == Success(r)
  {
    match r
    case Full =>
    case Square =>
    case Pixels(_, _, _, _) =>
      PixelsComplete(s, r);
      ReadAsPixels(s);
    case Percent(_, _, _, _) =>
      var a, b, c, d :| s == "pct:" + Four(a, b, c, d) && SpellsPercent(a, b, c, d, r);
      PercentComplete(a, b, c, d, r);
      ReadAsPercent(Four(a, b, c, d));
  }

  // The region parser reads exactly the spellings of legal regions.
  lemma ParseRegionIff(s: string, r: Region)
    ensures ParseRegion(s) == Success(r) <==> LegalRegion(r) && SpellsRegion(s, r)
  {
    if ParseRegion(s) == Success(r) {
      RegionSound(s);
    }
    if LegalRegion(r) && SpellsRegion(s, r) {
      RegionComplete(s, r);
    }
  }

  // ----- sizes -----

  lemma PairSound(s: string)
    requires ParsePair(s).Some?
    ensures SpellsPair(s, ParsePair(s).value.0, ParsePair(s).value.1)
  {
    var (a, b) := SplitOnce(s, ',').value;
    PositiveIff(a, ParsePair(s).value.0);
    PositiveIff(b, ParsePair(s).value.1);
    assert s == a + [','] + b;
  }

  lemma PairComplete(s: string, w: U32, h: U32)
    requires w > 0 && h > 0 && SpellsPair(s, w, h)
    ensures ParsePair(s) == Some((w, h)) && ParseDimensions(s) == Some(WidthHeight(w, h)) && s != "" && IsDigit(s[0])
  {
    var a, b :| s == a + [','] + b && SpellsNat(a, w) && SpellsNat(b, h);
    NatClean(a, w);
    NatClean(b, h);
    SplitOnceAt(a, b, ',');
    PositiveIff(a, w);
    PositiveIff(b, h);
  }

  lemma DimensionsSound(s: string)
    requires ParseDimensions(s).Some?
    ensures SpellsKind(s, ParseDimensions(s).value)
  {
    var (a, b) := SplitOnce(s, ',').value;
    var k := ParseDimensions(s).value;
    assert s == a + [','] + b;
    match k
    case Width(w) =>
      PositiveIff(a, w);
      assert s == a + [','];
    case Height(h) =>
      PositiveIff(b, h);
      assert s == [','] + b;
    case WidthHeight(w, h) =>
      PositiveIff(a, w);
      PositiveIff(b, h);
  }

  lemma OneSideComplete(s: string, k: SizeKind)
    requires LegalSize(Size(true, k)) && (k.Width? || k.Height?) && SpellsKind(s, k)
    ensures ParseDimensions(s) == Some(k) && s != "" && (IsDigit(s[0]) || s[0] == ',')
  {
    match k
    case Width(w) =>
      var a :| s == a + [','] && SpellsNat(a, w);
      NatClean(a, w);
      assert s == a + [','] + "";
      SplitOnceAt(a, "", ',');
      PositiveIff(a, w);
    case Height(h) =>
      var b :| s == [','] + b && SpellsNat(b, h);
      NatClean(b, h);
      assert s == "" + [','] + b;
      SplitOnceAt("", b, ',');
      PositiveIff(b, h);
  }

  lemma ScaleSound(s: string, upscale: bool)
    requires ParseScale(s, upscale).Some?
    ensures SpellsKind("pct:" + s, ParseScale(s, upscale).value)
  {
    ParseDecimalIff(s, ParseDecimal(s).value);
  }

  lemma KindSound(s: string, upscale: bool)
    requires ParseSizeKind(s, upscale).Some?
    ensures SpellsKind(s, ParseSizeKind(s, upscale).value)
  {
    if s != "max" {
      if "pct:" <= s {
        ScaleSound(s[4..], upscale);
        assert s == "pct:" + s[4..];
      } else if Starts(s, '!') {
        PairSound(s[1..]);
        assert s == "!" + s[1..];
      } else {
        DimensionsSound(s);
      }
    }
  }

  lemma MarkedComplete(s: string, k: SizeKind, upscale: bool)
    requires LegalSize(Size(upscale, k)) && (k.Scaled? || k.Confined?) && SpellsKind(s, k)
    ensures ParseSizeKind(s, upscale) == Some(k) && s != "" && s[0] != '^'
  {
    match k
    case Scaled(n) =>
      var a :| s == "pct:" + a && SpellsDecimal(a, n);
      assert s[4..] == a && s[0] == 'p';
      ParseDecimalIff(a, n);
    case Confined(w, h) =>
      var p :| s == "!" + p && SpellsPair(p, w, h);
      assert s[1..] == p && s[0] == '!';
      PairComplete(p, w, h);
  }

  lemma KindComplete(s: string, k: SizeKind, upscale: bool)
    requires LegalSize(Size(upscale, k)) && SpellsKind(s, k)
    ensures ParseSizeKind(s, upscale) == Some(k) && !Starts(s, '^')
  {
    match k
    case Max =>
    case WidthHeight(w, h) =>
      PairComplete(s, w, h);
      DimensionsForm(s, upscale);
    case Width(_) =>
      OneSideComplete(s, k);
      DimensionsForm(s, upscale);
    case Height(_) =>
      OneSideComplete(s, k);
      DimensionsForm(s, upscale);
    case _ => MarkedComplete(s, k, upscale);
  }

  // The size parser reads exactly the spellings of legal sizes.
  lemma ParseSizeIff(s: string, z: Size)
    ensures ParseSize(s) == Success(z) <==> LegalSize(z) && SpellsSize(s, z)
  {
    if ParseSize(s) == Success(z) {
      SizeSound(s);
    }
    if LegalSize(z) && SpellsSize(s, z) {
      var t :| s == Marked(z.upscale, '^', t) && SpellsKind(t, z.kind);
      KindComplete(t, z.kind, z.upscale);
      assert z.upscale ==> s[1..] == t;
    }
  }

  lemma SizeSound(s: string)
    requires ParseSize(s).Success?
    ensures SpellsSize(s, ParseSize(s).value)
  {
    var z := ParseSize(s).value;
    var t := if z.upscale then s[1..] else s;
    KindSound(t, z.upscale);
    MarkTaken(s, '^');
    assert s == Marked(z.upscale, '^', t) && SpellsKind(t, z.kind);
  }

  // ----- rotations -----

  lemma ParseRotationIff(s: string, r: Rotation)
    ensures ParseRotation(s) == Success(r) <==> LegalRotation(r) && SpellsRotation(s, r)
  {
    if ParseRotation(s) == Success(r) {
      RotationSound(s);
    }
    if LegalRotation(r) && SpellsRotation(s, r) {
      RotationComplete(s, r);
    }
  }

  lemma RotationSound(s: string)
    requires ParseRotation(s).Success?
    ensures SpellsRotation(s, ParseRotation(s).value)
  {
    var r := ParseRotation(s).value;
    var t := if r.mirror then s[1..] else s;
    ParseDecimalIff(t, r.degrees);
    MarkTaken(s, '!');
    assert s == Marked(r.mirror, '!', t) && SpellsDecimal(t, r.degrees);
  }

  lemma RotationComplete(s: string, r: Rotation)
    requires LegalRotation(r) && SpellsRotation(s, r)
    ensures ParseRotation(s) == Success(r) && '/' !in s
  {
    var t :| s == Marked(r.mirror, '!', t) && SpellsDecimal(t, r.degrees);
    DecimalClean(t, r.degrees);
    ParseDecimalIff(t, r.degrees);
    assert r.mirror ==> s[1..] == t;
  }

  // ----- qualities and formats -----

  lemma ParseQualityIff(s: string, q: Quality)
    ensures ParseQuality(s) == Success(q) <==> s == PrintQuality(q)
    ensures ParseQuality(s).Failure? ==> ParseQuality(s).error == ParseError(InQuality, s)
  {
  }

  lemma ParseFormatIff(s: string, f: Format)
    ensures ParseFormat(s) == Success(f) <==> s == PrintFormat(f)
    ensures ParseFormat(s).Failure? ==> ParseFormat(s).error == ParseError(InFormat, s)
  {
  }

  // ----- requests -----

  ghost predicate Spells(path: string, r: ImageRequest) {
    exists a, b, c :: path == JoinPath(a, b, c, r.quality, r.format) && SpellsComponents(a, b, c, r)
  }

  ghost predicate SpellsComponents(a: string, b: string, c: string, r: ImageRequest) {
    SpellsRegion(a, r.region) && SpellsSize(b, r.size) && SpellsRotation(c, r.rotation)
  }

  lemma FourClean(a: string, b: string, c: string, d: string, r: Region)
    requires SpellsPixels(a, b, c, d, r) || SpellsPercent(a, b, c, d, r)
    ensures '/' !in Four(a, b, c, d)
  {
    if SpellsPixels(a, b, c, d, r) {
      NatClean(a, r.x);
      NatClean(b, r.y);
      NatClean(c, r.width);
      NatClean(d, r.height);
    } else {
      DecimalClean(a, r.left);
      DecimalClean(b, r.top);
      DecimalClean(c, r.wide);
      DecimalClean(d, r.high);
    }
    FourNoSlash(a, b, c, d);
  }

  lemma RegionClean(s: string, r: Region)
    requires SpellsRegion(s, r)
    ensures '/' !in s
  {
    match r
    case Full =>
    case Square =>
    case Pixels(_, _, _, _) =>
      var a, b, c, d :| s == Four(a, b, c, d) && SpellsPixels(a, b, c, d, r);
      FourClean(a, b, c, d, r);
    case Percent(_, _, _, _) =>
      var a, b, c, d :| s == "pct:" + Four(a, b, c, d) && SpellsPercent(a, b, c, d, r);
      FourClean(a, b, c, d, r);
  }

  lemma PairClean(s: string, w: U32, h: U32)
    requires SpellsPair(s, w, h)
    ensures '/' !in s
  {
    var a, b :| s == a + [','] + b && SpellsNat(a, w) && SpellsNat(b, h);
    NatClean(a, w);
    NatClean(b, h);
  }

  lemma KindClean(s: string, k: SizeKind)
    requires SpellsKind(s, k)
    ensures '/' !in s
  {
    match k
    case Max =>
    case Width(w) =>
      var a :| s == a + [','] && SpellsNat(a, w);
      NatClean(a, w);
    case Height(h) =>
      var b :| s == [','] + b && SpellsNat(b, h);
      NatClean(b, h);
    case Scaled(n) =>
      var a :| s == "pct:" + a && SpellsDecimal(a, n);
      DecimalClean(a, n);
    case WidthHeight(w, h) => PairClean(s, w, h);
    case Confined(w, h) =>
      var p :| s == "!" + p && SpellsPair(p, w, h);
      PairClean(p, w, h);
  }

  lemma SizeClean(s: string, z: Size)
    requires SpellsSize(s, z)
    ensures '/' !in s
  {
    var t :| s == Marked(z.upscale, '^', t) && SpellsKind(t, z.kind);
    KindClean(t, z.kind);
  }

  // A path without its structure, and a cut one.
  predicate CutInto(path: string, s: Segments) {
    && '/' !in s.region && '/' !in s.size && '/' !in s.rotation && '/' !in s.quality && '/' !in s.format
    && '.' !in s.format && path == Join([s.region, s.size, s.rotation, s.quality + ['.'] + s.format], '/')
  }

  lemma LastCut(last: string)
    requires '/' !in last && RSplitOnce(last, '.').Some?
    ensures var (q, f) := RSplitOnce(last, '.').value;
      last == q + ['.'] + f && '.' !in f && '/' !in q && '/' !in f
  {
  }

  lemma CutSound(path: string)
    requires CutPath(path).Success?
    ensures CutInto(path, CutPath(path).value)
  {
    var segs, s := Split(path, '/'), CutPath(path).value;
    JoinSplit(path, '/');
    LastCut(segs[3]);
    var four := [s.region, s.size, s.rotation, s.quality + ['.'] + s.format];
    assert segs == four;
  }

  lemma CutComplete(path: string, s: Segments)
    requires CutInto(path, s)
    ensures CutPath(path) == Success(s)
  {
    var last := s.quality + ['.'] + s.format;
    SplitJoin([s.region, s.size, s.rotation, last], '/');
    RSplitOnceAt(s.quality, s.format, '.');
  }

  // A path is cut exactly when it is four segments of which the last has a point,
  // at its last point.
  lemma CutPathIff(path: string, s: Segments)
    ensures CutPath(path) == Success(s) <==> CutInto(path, s)
    ensures CutPath(path).Failure? ==> CutPath(path).error == ParseError(InStructure, path)
  {
    if CutPath(path).Success? {
      CutSound(path);
    }
    if CutInto(path, s) {
      CutComplete(path, s);
    }
  }

  lemma ReadIsSpelledOut(path: string)
    requires ParseRequest(path).Success?
    ensures Spells(path, ParseRequest(path).value)
  {
    var s, r := CutPath(path).value, ParseRequest(path).value;
    CutPathIff(path, s);
    ParseRegionIff(s.region, r.region);
    ParseSizeIff(s.size, r.size);
    ParseRotationIff(s.rotation, r.rotation);
    ParseQualityIff(s.quality, r.quality);
    ParseFormatIff(s.format, r.format);
    assert path == JoinPath(s.region, s.size, s.rotation, r.quality, r.format);
    assert SpellsComponents(s.region, s.size, s.rotation, r);
  }

  lemma SpelledOutIsRead(path: string, r: ImageRequest)
    requires Legal(r) && Spells(path, r)
    ensures ParseRequest(path) == Success(r)
  {
    var a, b, c :| path == JoinPath(a, b, c, r.quality, r.format) && SpellsComponents(a, b, c, r);
    RegionClean(a, r.region);
    SizeClean(b, r.size);
    RotationComplete(c, r.rotation);
    CutJoined(a, b, c, r.quality, r.format);
    RegionComplete(a, r.region);
    ParseSizeIff(b, r.size);
    QualityFormatShape(r.quality, r.format);
  }

  // The request parser reads exactly the spellings of legal requests, each as the
  // request it spells.
  lemma ParseRequestIff(path: string, r: ImageRequest)
    ensures ParseRequest(path) == Success(r) <==> Legal(r) && Spells(path, r)
  {
    if ParseRequest(path) == Success(r) {
      ReadIsSpelledOut(path);
    }
    if Legal(r) && Spells(path, r) {
      SpelledOutIsRead(path, r);
    }
  }

  // ----- refusals -----

  ghost predicate RegionText(s: string) {
    exists r :: LegalRegion(r) && SpellsRegion(s, r)
  }

  ghost predicate SizeText(s: string) {
    exists z :: LegalSize(z) && SpellsSize(s, z)
  }

  ghost predicate RotationText(s: string) {
    exists r :: LegalRotation(r) && SpellsRotation(s, r)
  }

  lemma TextsRead(s: string)
    ensures ParseRegion(s).Success? <==> RegionText(s)
    ensures ParseSize(s).Success? <==> SizeText(s)
    ensures ParseRotation(s).Success? <==> RotationText(s)
  {
    if ParseRegion(s).Success? {
      ParseRegionIff(s, ParseRegion(s).value);
    }
    if r :| LegalRegion(r) && SpellsRegion(s, r) {
      ParseRegionIff(s, r);
    }
    SizeTextRead(s);
    RotationTextRead(s);
  }

  lemma SizeTextRead(s: string)
    ensures ParseSize(s).Success? <==> SizeText(s)
  {
    if ParseSize(s).Success? {
      ParseSizeIff(s, ParseSize(s).value);
    }
    if z :| LegalSize(z) && SpellsSize(s, z) {
      ParseSizeIff(s, z);
    }
  }

  lemma RotationTextRead(s: string)
    ensures ParseRotation(s).Success? <==> RotationText(s)
  {
    if ParseRotation(s).Success? {
      ParseRotationIff(s, ParseRotation(s).value);
    }
    if r :| LegalRotation(r) && SpellsRotation(s, r) {
      ParseRotationIff(s, r);
    }
  }

  // What any other path is refused for: its structure, or the first of its
  // components, from the left, that spells nothing.
  lemma RefusedFor(path: string, s: Segments)
    ensures (forall t :: !CutInto(path, t)) ==> ParseRequest(path) == Failure(ParseError(InStructure, path))
    ensures CutInto(path, s) && ParseRequest(path).Failure? ==>
      ParseRequest(path).error == if !RegionText(s.region) then ParseError(InRegion, s.region)
                                  else if !SizeText(s.size) then ParseError(InSize, s.size)
                                  else if !RotationText(s.rotation) then ParseError(InRotation, s.rotation)
                                  else if forall q :: s.quality != PrintQuality(q) then ParseError(InQuality, s.quality)
                                  else ParseError(InFormat, s.format)
  {
    if CutPath(path).Success? {
      CutSound(path);
    }
    CutPathIff(path, s);
    TextsRead(s.region);
    TextsRead(s.size);
    TextsRead(s.rotation);
    QualityRead(s.quality);
    ParseFormatIff(s.format, Jpg);
  }

  lemma QualityRead(s: string)
    ensures ParseQuality(s).Success? <==> exists q :: s == PrintQuality(q)
    ensures ParseQuality(s).Failure? ==> ParseQuality(s).error == ParseError(InQuality, s)
  {
    if ParseQuality(s).Success? {
      ParseQualityIff(s, ParseQuality(s).value);
    }
    if q :| s == PrintQuality(q) {
      ParseQualityIff(s, q);
    }
  }
}
