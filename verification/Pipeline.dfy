// Plan execution: crop, resample, recolour, mirror, turn, encode.
module Pipeline {
  import opened Wrappers
  import Arithmetic
  import opened Decimals
  import opened Grammar
  import opened Eval
  import opened Images
  import opened Colors
  import opened Buffers
  import opened Rasters
  import opened Levels
  import opened Pyramids

  // What the resampler, the free rotation and the encoders work on.
  datatype Packed = Packed(width: nat, height: nat, channels: nat, bytes: seq<Byte>) {
    predicate WellFormed() {
      1 <= channels <= 4 && |bytes| == width * height * channels
    }
  }

  // The steps that are not modelled: any functions, of which the resampler may
  // fail and otherwise gives a well-formed buffer of the size asked for, the
  // rotation gives a well-formed buffer, and the encoder gives bytes or fails.
  datatype Kernels = Kernels(resample: (Packed, nat, nat) -> Option<Packed>, spin: (Packed, Decimal) -> Packed,
                             encode: (Packed, Format) -> Option<string>) {
    ghost predicate Sound() {
      && (forall b: Packed, w: nat, h: nat {:trigger resample(b, w, h)} :: b.WellFormed() ==>
            match resample(b, w, h)
            case None => true
            case Some(r) => r.WellFormed() && r.width == w && r.height == h && r.channels == b.channels)
      && (forall b: Packed, d: Decimal {:trigger spin(b, d)} :: b.WellFormed() ==> spin(b, d).WellFormed())
    }
  }

  datatype PipelineError = CodecFailed(error: CodecError) | ResampleFailed | EncodeFailed

  ghost function Pack(p: Picture): (b: Packed)
    requires 1 <= p.channels <= 4
    ensures b.WellFormed()
  {
    Packed(p.width, p.height, p.channels, Packing(p))
  }

  ghost function Unpack(b: Packed): (p: Picture)
    requires b.WellFormed()
    ensures p.width == b.width && p.height == b.height && p.channels == b.channels
  {
    Unpacked(b.bytes, b.width, b.height, b.channels)
  }

  predicate IsQuarterTurn(degrees: Decimal) {
    degrees.Mod(90).units == 0
  }

  function Quarters(degrees: Decimal): nat
    requires IsQuarterTurn(degrees)
  {
    ModPositive(90, degrees.scale);
    degrees.units / (90 * Pow10(degrees.scale))
  }

  // The count of quarter turns is the angle, and a grammar angle's fits a byte.
  lemma QuartersAreTheAngle(degrees: Decimal)
    requires IsQuarterTurn(degrees)
    ensures Quarters(degrees) as real * 90.0 == degrees.Value()
    ensures degrees.Value() <= 360.0 ==> Quarters(degrees) <= 4
  {
    ModPositive(90, degrees.scale);
    WholeQuotient(degrees.units, Quarters(degrees), Pow10(degrees.scale));
  }

  lemma WholeQuotient(units: nat, q: nat, p: nat)
    requires p > 0 && 90 * p > 0 && units % (90 * p) == 0 && q == units / (90 * p)
    ensures q as real * 90.0 == units as real / p as real
  {
    assert units == q * (90 * p);
    assert units as real == (q as real * 90.0) * p as real;
  }

  // ----- what each stage means -----

  ghost function Resized(p: Picture, w: nat, h: nat, k: Kernels): (r: Option<Picture>)
    requires 1 <= p.channels <= 4 && k.Sound()
    ensures r.Some? ==> r.value.width == w && r.value.height == h && r.value.channels == p.channels
  {
    if p.width == w && p.height == h then Some(p)
    else
      match k.resample(Pack(p), w, h)
      case Some(b) => Some(Unpack(b))
      case None => None
  }

  ghost function Recoloured(p: Picture, quality: Quality): (r: Picture)
    requires 1 <= p.channels <= 4
    ensures r.width == p.width && r.height == p.height && 1 <= r.channels <= 4
  {
    match quality
    case Default => p
    case Color => p
    case Gray => Mapped(p, GrayPixel, GrayChannels(p.channels))
    case Bitonal => Mapped(p, BitonalPixel, GrayChannels(p.channels))
  }

  ghost function MirroredIf(p: Picture, mirror: bool): (r: Picture)
    ensures r.SameShape(p)
  {
    if mirror then Mirrored(p) else p
  }

  ghost function Rotated(p: Picture, degrees: Decimal, k: Kernels): (r: Picture)
    requires 1 <= p.channels <= 4 && k.Sound()
    ensures 1 <= r.channels <= 4
  {
    if degrees.units == 0 then p
    else if IsQuarterTurn(degrees) then
      TurnedSides(p, Quarters(degrees));
      Turned(p, Quarters(degrees))
    else Unpack(k.spin(Pack(p), degrees))
  }

  // From a picture of the output's size on.
  ghost function Finished(p: Picture, plan: Plan, k: Kernels): (r: Picture)
    requires 1 <= p.channels <= 4 && k.Sound()
    ensures 1 <= r.channels <= 4
  {
    Rotated(MirroredIf(Recoloured(p, plan.quality), plan.mirror), plan.degrees, k)
  }

  ghost function Rendered(p: Picture, plan: Plan, k: Kernels): (r: Option<Picture>)
    requires 1 <= p.channels <= 4 && k.Sound()
    ensures r.Some? ==> 1 <= r.value.channels <= 4
  {
    match Resized(p, plan.outW, plan.outH, k)
    case Some(sized) => Some(Finished(sized, plan, k))
    case None => None
  }

  ghost function Encoded(p: Picture, format: Format, k: Kernels): Result<string, PipelineError>
    requires 1 <= p.channels <= 4
  {
    match k.encode(Pack(p), format)
    case Some(bytes) => Success(bytes)
    case None => Failure(EncodeFailed)
  }

  // What the decoded crop becomes.
  ghost function Produced(p: Picture, plan: Plan, k: Kernels): Result<string, PipelineError>
    requires 1 <= p.channels <= 4 && k.Sound()
  {
    match Rendered(p, plan, k)
    case Some(picture) => Encoded(picture, plan.format, k)
    case None => Failure(ResampleFailed)
  }

  // ----- the stages as they run -----

  method Resize(raster: Raster, w: nat, h: nat, k: Kernels) returns (r: Result<Raster, PipelineError>)
    requires raster.Valid() && k.Sound()
    ensures match Resized(raster.pic, w, h, k)
      case None => r == Failure(ResampleFailed)
      case Some(p) =>
        && r.Success? && r.value.Valid() && r.value.pic == p
        && (r.value == raster || (fresh(r.value) && fresh(r.value.data)))
        && (r.value.width, r.value.height, r.value.channels) == (w, h, raster.channels)
  {
    if raster.width == w && raster.height == h {
      return Success(raster);
    }
    raster.DataIsPacking();
    var out := k.resample(Packed(raster.width, raster.height, raster.channels, raster.data[..]), w, h);
    if out.None? {
      return Failure(ResampleFailed);
    }
    var resized := new Raster.FromBytes(out.value.width, out.value.height, out.value.channels, out.value.bytes);
    return Success(resized);
  }

  method Recolour(raster: Raster, quality: Quality) returns (r: Raster)
    requires raster.Valid()
    modifies raster.data, raster`pic
    ensures r.Valid() && r.pic == Recoloured(old(raster.pic), quality)
    ensures r == raster || (fresh(r) && fresh(r.data))
  {
    match quality
    case Default => r := raster;
    case Color => r := raster;
    case Gray => r := raster.IntoGray();
    case Bitonal => r := raster.IntoBitonal();
  }

  method Rotate(raster: Raster, degrees: Decimal, k: Kernels) returns (r: Raster)
    requires raster.Valid() && k.Sound()
    modifies raster.data, raster`pic
    ensures r.Valid() && r.pic == Rotated(old(raster.pic), degrees, k)
  {
    if degrees.units == 0 {
      r := raster;
    } else if IsQuarterTurn(degrees) {
      r := raster.RotateQuarters(Quarters(degrees));
    } else {
      raster.DataIsPacking();
      var out := k.spin(Packed(raster.width, raster.height, raster.channels, raster.data[..]), degrees);
      r := new Raster.FromBytes(out.width, out.height, out.channels, out.bytes);
    }
  }

  // Everything after decoding. A plan's output has at least one column.
  method Render(decoded: Raster, plan: Plan, k: Kernels) returns (r: Result<Raster, PipelineError>)
    requires decoded.Valid() && k.Sound() && plan.outW > 0
    modifies decoded.data, decoded`pic
    ensures match Rendered(old(decoded.pic), plan, k)
      case None => r == Failure(ResampleFailed)
      case Some(p) => r.Success? && r.value.Valid() && r.value.pic == p
  {
    var resized := Resize(decoded, plan.outW, plan.outH, k);
    if resized.Failure? {
      return resized;
    }
    var finished := Finish(resized.value, plan, k);
    return Success(finished);
  }

  method Finish(raster: Raster, plan: Plan, k: Kernels) returns (r: Raster)
    requires raster.Valid() && k.Sound() && raster.width > 0
    modifies raster.data, raster`pic
    ensures r.Valid() && r.pic == Finished(old(raster.pic), plan, k)
  {
    var recoloured := Recolour(raster, plan.quality);
    if plan.mirror {
      recoloured.Mirror();
    }
    r := Rotate(recoloured, plan.degrees, k);
  }

  method Encode(raster: Raster, format: Format, k: Kernels) returns (r: Result<string, PipelineError>)
    requires raster.Valid()
    ensures r == Encoded(raster.pic, format, k)
  {
    raster.DataIsPacking();
    var out := k.encode(Packed(raster.width, raster.height, raster.channels, raster.data[..]), format);
    return if out.Some? then Success(out.value) else Failure(EncodeFailed);
  }

  method RenderAndEncode(decoded: Raster, plan: Plan, k: Kernels) returns (r: Result<string, PipelineError>)
    requires decoded.Valid() && k.Sound() && plan.outW > 0
    modifies decoded.data, decoded`pic
    ensures r == Produced(old(decoded.pic), plan, k)
  {
    var rendered := Render(decoded, plan, k);
    if rendered.Failure? {
      return Failure(rendered.error);
    }
    r := Encode(rendered.value, plan.format, k);
  }

  // Full-resolution pixels per output pixel.
  function Needed(plan: Plan): real {
    Ratio(plan.crop.width, Arithmetic.Max(plan.outW, 1))
  }

  // So many of them are as many as the crop is wide.
  lemma NeededIs(plan: Plan)
    requires plan.outW > 0
    ensures Needed(plan) * plan.outW as real == plan.crop.width as real
  {
  }

  // What executing a plan on a whole picture comes to.
  ghost function WholeOutcome(p: Picture, plan: Plan, k: Kernels): Result<string, PipelineError>
    requires 1 <= p.channels <= 4 && plan.crop.Inside(p.width, p.height) && k.Sound()
  {
    if plan.crop.width * plan.crop.height * p.channels > USIZE_MAX then Failure(CodecFailed(RasterFailed(SizeOverflow)))
    else Produced(Crop(p, plan.crop.x, plan.crop.y, plan.crop.width, plan.crop.height), plan, k)
  }

  method ExecuteWhole(master: SimpleMaster, plan: Plan, k: Kernels) returns (r: Result<string, PipelineError>)
    requires master.raster.Valid() && k.Sound()
    requires plan.crop.Inside(master.raster.width, master.raster.height) && plan.outW > 0
    ensures r == WholeOutcome(master.raster.pic, plan, k)
  {
    var decoded := master.DecodeCrop(plan.crop);
    if decoded.Failure? {
      return Failure(CodecFailed(decoded.error));
    }
    r := RenderAndEncode(decoded.value, plan, k);
  }

  // What executing a plan on a pyramid comes to, from directory `at`.
  ghost function TiledOutcome(ifds: seq<Ifd>, broken: set<nat>, damaged: set<(nat, nat)>, levels: seq<Level>, at: nat,
                              plan: Plan, k: Kernels): Result<string, PipelineError>
    requires Pyramidal(ifds, levels) && plan.crop.width > 0 && plan.crop.height > 0 && k.Sound()
  {
    match CropOutcome(ifds, broken, damaged, levels, at, plan.crop, Needed(plan))
    case Failure(e) => Failure(CodecFailed(e))
    case Success(p) => Produced(p, plan, k)
  }

  method ExecuteTiled(master: TiffPyramid, plan: Plan, k: Kernels) returns (r: Result<string, PipelineError>)
    requires master.Valid() && k.Sound()
    requires plan.crop.Inside(master.levels[0].width, master.levels[0].height) && plan.outW > 0
    modifies master, master.decoder
    ensures master.Valid()
    ensures master.At() == Sought(old(master.At()), LevelForScale(master.levels, Needed(plan)).ifd, master.decoder.broken,
                                  master.decoder.stranded)
    ensures r.Failure? ==>
      r.error != CodecFailed(Corrupt(NoSuchLevel)) && r.error != CodecFailed(Corrupt(OutsideLevel))
    ensures old(master.InStep()) || LevelForScale(master.levels, Needed(plan)).ifd != old(master.currentIfd) ==>
      r == TiledOutcome(master.decoder.ifds, master.decoder.broken, master.decoder.damaged, master.levels,
                        old(master.currentIfd), plan, k)
  {
    var decoded := master.DecodeCrop(plan.crop, Needed(plan));
    ghost var at := master.At();
    if decoded.Failure? {
      return Failure(CodecFailed(decoded.error));
    }
    ghost var picture := decoded.value.pic;
    r := RenderAndEncode(decoded.value, plan, k);
    assert r == Produced(picture, plan, k) && master.At() == at;
  }

  // ----- tiled or whole -----

  lemma UndamagedRegion(ifd: Ifd, at: nat, x: nat, y: nat, w: nat, h: nat)
    requires ifd.Valid() && w > 0 && h > 0 && Contains(ifd.picture, x, y, w, h)
    ensures RegionOutcome(ifd, at, {}, x, y, w, h)
         == if w * h * ifd.picture.channels > USIZE_MAX then Failure(RasterFailed(SizeOverflow))
            else Success(Crop(ifd.picture, x, y, w, h))
  {
  }

  // From an undamaged pyramid a plan gives what it gives from the whole picture,
  // wherever no smaller level has the detail.
  lemma TiledIsWhole(ifds: seq<Ifd>, levels: seq<Level>, at: nat, plan: Plan, k: Kernels)
    requires Pyramidal(ifds, levels) && k.Sound() && FullSizeServes(levels, Needed(plan))
    requires ifds[0].Valid() && plan.crop.Inside(ifds[0].picture.width, ifds[0].picture.height)
    ensures TiledOutcome(ifds, {}, {}, levels, at, plan, k) == WholeOutcome(ifds[0].picture, plan, k)
  {
    LevelsAreLadder(ifds, levels);
    LevelStands(ifds, levels, 0);
    FullScaleIsPlainCrop(levels, plan.crop, Needed(plan));
    UndamagedRegion(ifds[0], 0, plan.crop.x, plan.crop.y, plan.crop.width, plan.crop.height);
  }

  // A plan that does not enlarge is decoded with at least the columns it outputs
  // where every level is as wide as its factor promises.
  lemma EnoughColumns(ifds: seq<Ifd>, broken: set<nat>, damaged: set<(nat, nat)>, levels: seq<Level>, at: nat,
                      plan: Plan)
    requires Pyramidal(ifds, levels) && Ladder(levels) && WideEnough(levels)
    requires plan.crop.Inside(levels[0].width, levels[0].height) && 0 < plan.outW <= plan.crop.width
    ensures var r := CropOutcome(ifds, broken, damaged, levels, at, plan.crop, Needed(plan));
      r.Success? ==> r.value.width >= plan.outW
  {
    ChosenStands(ifds, levels, plan.crop, Needed(plan));
    WideEnoughSuffices(levels, plan.crop, plan.outW);
  }

  // ----- the order of the stages -----

  lemma RecolourThenMirror(p: Picture, quality: Quality, mirror: bool)
    requires 1 <= p.channels <= 4
    ensures MirroredIf(Recoloured(p, quality), mirror) == Recoloured(MirroredIf(p, mirror), quality)
  {
    if mirror {
      MapThenMirror(p, GrayPixel, GrayChannels(p.channels));
      MapThenMirror(p, BitonalPixel, GrayChannels(p.channels));
    }
  }

  lemma RecolourThenTurn(p: Picture, quality: Quality, k: nat)
    requires 1 <= p.channels <= 4
    ensures Turned(p, k).channels == p.channels
    ensures Turned(Recoloured(p, quality), k) == Recoloured(Turned(p, k), quality)
  {
    TurnedSides(p, k);
    MapThenTurn(p, GrayPixel, GrayChannels(p.channels), k);
    MapThenTurn(p, BitonalPixel, GrayChannels(p.channels), k);
  }

  lemma NoTurn(p: Picture)
    ensures Turned(p, 0) == p
  {
  }

  ghost function Turns(degrees: Decimal): nat
    requires IsQuarterTurn(degrees)
  {
    if degrees.units == 0 then 0 else Quarters(degrees)
  }

  // For a quarter-turn plan colour may as well be changed last: placing the
  // pixels first and recolouring afterwards gives the same output.
  lemma ColourMayComeLast(p: Picture, plan: Plan, k: Kernels)
    requires 1 <= p.channels <= 4 && k.Sound() && IsQuarterTurn(plan.degrees)
    ensures match Resized(p, plan.outW, plan.outH, k)
      case None => Rendered(p, plan, k) == None
      case Some(sized) =>
        var placed := Turned(MirroredIf(sized, plan.mirror), Turns(plan.degrees));
        placed.channels == p.channels && Rendered(p, plan, k) == Some(Recoloured(placed, plan.quality))
  {
    match Resized(p, plan.outW, plan.outH, k)
    case None =>
    case Some(sized) =>
      RecolourThenMirror(sized, plan.quality, plan.mirror);
      var flipped := MirroredIf(sized, plan.mirror);
      NoTurn(Recoloured(flipped, plan.quality));
      RecolourThenTurn(flipped, plan.quality, Turns(plan.degrees));
  }

  lemma TurnsAreTheAngle(degrees: Decimal)
    requires IsQuarterTurn(degrees)
    ensures 90.0 * Turns(degrees) as real == degrees.Value()
  {
    if degrees.units != 0 {
      QuartersAreTheAngle(degrees);
    }
  }

  predicate TurnsBy(degrees: Decimal, turns: nat) {
    degrees.Value() == 90.0 * turns as real
  }

  // An angle of whole quarters is told by its value.
  lemma QuarterTurnIff(degrees: Decimal, turns: nat)
    ensures IsQuarterTurn(degrees) && Turns(degrees) == turns <==> degrees.Value() == 90.0 * turns as real
  {
    ModPositive(90, degrees.scale);
    if degrees.Value() == 90.0 * turns as real {
      WholeUnits(degrees.units, turns, Pow10(degrees.scale), 90 * Pow10(degrees.scale));
    }
    if IsQuarterTurn(degrees) {
      TurnsAreTheAngle(degrees);
    }
  }

  lemma WholeUnits(units: nat, q: nat, p: nat, m: nat)
    requires p > 0 && m == 90 * p && units as real / p as real == 90.0 * q as real
    ensures m > 0 && units % m == 0 && units / m == q && (units == 0 <==> q == 0)
  {
    UnitsAre(units as real, q, p);
    assert q * m == 90 * (q * p);
    Arithmetic.UniqueRemainder(q, 0, m);
  }

  lemma UnitsAre(units: real, q: nat, p: nat)
    requires p > 0 && units / p as real == 90.0 * q as real
    ensures units == (90 * (q * p)) as real
  {
    var x, y := q as real, p as real;
    assert (units / y) * y == units;
    assert (90.0 * x) * y == 90.0 * (x * y);
    assert (q * p) as real == x * y;
  }

  // Where the pixel at (x, y) comes from in a picture of w by h that is mirrored,
  // left for right, and then turned clockwise.
  function Origin(w: nat, h: nat, mirror: bool, turns: nat, x: nat, y: nat): Place {
    var at := TurnOrigin(w, h, turns, x, y);
    if mirror then Place(w - 1 - at.x, at.y) else at
  }

  lemma PlacedFrom(p: Picture, mirror: bool, turns: nat, x: nat, y: nat)
    requires if turns % 2 == 0 then x < p.width && y < p.height else x < p.height && y < p.width
    ensures ShowsAt(Turned(MirroredIf(p, mirror), turns), x, y, p, Origin(p.width, p.height, mirror, turns, x, y))
  {
    var at := TurnOrigin(p.width, p.height, turns, x, y);
    TurnedFrom(MirroredIf(p, mirror), turns, x, y);
    MirroredAt(p, mirror, at.x, at.y);
    ShowsThrough(Turned(MirroredIf(p, mirror), turns), x, y, MirroredIf(p, mirror), at.x, at.y, p,
                 Origin(p.width, p.height, mirror, turns, x, y));
  }

  lemma MirroredAt(p: Picture, mirror: bool, u: nat, v: nat)
    requires u < p.width && v < p.height
    ensures ShowsAt(MirroredIf(p, mirror), u, v, p, Place(if mirror then p.width - 1 - u else u, v))
  {
  }

  // What a quality makes of a pixel.
  predicate ColouredAs(quality: Quality, was: Pixel, now: Pixel) {
    match quality
    case Gray => IsGrayOf(was, now)
    case Bitonal => IsBitonalOf(was, now)
    case _ => now == was
  }

  lemma PixelColoured(p: Picture, quality: Quality, x: nat, y: nat)
    requires 1 <= p.channels <= 4 && x < p.width && y < p.height
    ensures ColouredAs(quality, p.rows[y][x], Recoloured(p, quality).rows[y][x])
  {
    GrayIs(p.rows[y][x]);
    BitonalIs(p.rows[y][x]);
  }

  // Every pixel of a quarter-turn output: the sized picture's pixel from the place
  // its mirror and turns put there, in the colours its quality asks for.
  lemma EveryPixel(p: Picture, plan: Plan, k: Kernels, turns: nat, x: nat, y: nat)
    requires 1 <= p.channels <= 4 && k.Sound() && plan.degrees.Value() == 90.0 * turns as real
    requires x < Finished(p, plan, k).width && y < Finished(p, plan, k).height
    ensures var at := Origin(p.width, p.height, plan.mirror, turns, x, y);
      && 0 <= at.x < p.width && 0 <= at.y < p.height
      && ColouredAs(plan.quality, p.rows[at.y][at.x], Finished(p, plan, k).rows[y][x])
  {
    var coloured := Recoloured(p, plan.quality);
    QuarterTurnIff(plan.degrees, turns);
    NoTurn(MirroredIf(coloured, plan.mirror));
    TurnedSides(MirroredIf(coloured, plan.mirror), turns);
    PlacedFrom(coloured, plan.mirror, turns, x, y);
    var at := Origin(p.width, p.height, plan.mirror, turns, x, y);
    PixelColoured(p, plan.quality, at.x, at.y);
  }

  lemma ZeroIsQuarter(degrees: Decimal)
    ensures degrees.units == 0 ==> IsQuarterTurn(degrees)
  {
    ModPositive(90, degrees.scale);
    var m := 90 * Pow10(degrees.scale);
    assert m > 0 && 0 % m == 0;
  }

  lemma NotQuarters(degrees: Decimal)
    requires forall turns: nat :: !TurnsBy(degrees, turns)
    ensures !IsQuarterTurn(degrees) && degrees.units != 0
  {
    ZeroIsQuarter(degrees);
    if IsQuarterTurn(degrees) {
      var turns := Turns(degrees);
      TurnsAreTheAngle(degrees);
      assert TurnsBy(degrees, turns);
    }
  }

  // The same picture recoloured and mirrored, pixel by pixel.
  ghost predicate IsFlat(flat: Picture, p: Picture, quality: Quality, mirror: bool) {
    && (flat.width, flat.height) == (p.width, p.height)
    && forall y: nat, x: nat {:trigger flat.rows[y][x]} :: x < p.width && y < p.height ==>
      ColouredAs(quality, p.rows[y][if mirror then p.width - 1 - x else x], flat.rows[y][x])
  }

  lemma FlatIs(p: Picture, quality: Quality, mirror: bool)
    requires 1 <= p.channels <= 4
    ensures IsFlat(MirroredIf(Recoloured(p, quality), mirror), p, quality, mirror)
  {
    var coloured := Recoloured(p, quality);
    forall y: nat, x: nat | x < p.width && y < p.height
      ensures ColouredAs(quality, p.rows[y][if mirror then p.width - 1 - x else x],
                         MirroredIf(coloured, mirror).rows[y][x])
    {
      MirroredAt(coloured, mirror, x, y);
      PixelColoured(p, quality, if mirror then p.width - 1 - x else x, y);
    }
  }

  // At any other angle the free rotation is given that angle and such a picture.
  lemma FreeTurnIs(p: Picture, plan: Plan, k: Kernels) returns (flat: Picture)
    requires 1 <= p.channels <= 4 && k.Sound() && forall turns: nat :: !TurnsBy(plan.degrees, turns)
    ensures 1 <= flat.channels <= 4 && IsFlat(flat, p, plan.quality, plan.mirror)
    ensures Finished(p, plan, k) == Unpack(k.spin(Pack(flat), plan.degrees))
  {
    NotQuarters(plan.degrees);
    FlatIs(p, plan.quality, plan.mirror);
    flat := MirroredIf(Recoloured(p, plan.quality), plan.mirror);
  }

  // What a picture that needs no resampling becomes, pixel by pixel.
  ghost predicate Shows(out: Picture, p: Picture, left: nat, top: nat, w: nat, h: nat, quality: Quality, mirror: bool,
                        turns: nat) {
    && (out.width, out.height) == (if turns % 2 == 0 then (w, h) else (h, w))
    && forall y: nat, x: nat {:trigger out.rows[y][x]} :: x < out.width && y < out.height ==>
      PixelShows(out, x, y, p, left, top, Origin(w, h, mirror, turns, x, y), quality)
  }

  ghost predicate PixelShows(out: Picture, x: nat, y: nat, p: Picture, left: nat, top: nat, at: Place, quality: Quality)
    requires x < out.width && y < out.height
  {
    && 0 <= at.x && left + at.x < p.width && 0 <= at.y && top + at.y < p.height
    && ColouredAs(quality, p.rows[top + at.y][left + at.x], out.rows[y][x])
  }

  lemma FinishedShape(p: Picture, plan: Plan, k: Kernels, turns: nat)
    requires 1 <= p.channels <= 4 && k.Sound() && plan.degrees.Value() == 90.0 * turns as real
    ensures (Finished(p, plan, k).width, Finished(p, plan, k).height)
         == if turns % 2 == 0 then (p.width, p.height) else (p.height, p.width)
  {
    QuarterTurnIff(plan.degrees, turns);
    TurnedSides(MirroredIf(Recoloured(p, plan.quality), plan.mirror), turns);
  }

  lemma FinishedShows(p: Picture, plan: Plan, k: Kernels, turns: nat)
    requires 1 <= p.channels <= 4 && k.Sound() && plan.degrees.Value() == 90.0 * turns as real
    requires plan.crop.Inside(p.width, p.height)
    ensures var c := Crop(p, plan.crop.x, plan.crop.y, plan.crop.width, plan.crop.height);
      Shows(Finished(c, plan, k), p, plan.crop.x, plan.crop.y, plan.crop.width, plan.crop.height, plan.quality,
            plan.mirror, turns)
  {
    var c := Crop(p, plan.crop.x, plan.crop.y, plan.crop.width, plan.crop.height);
    var out := Finished(c, plan, k);
    FinishedShape(c, plan, k, turns);
    forall y: nat, x: nat | x < out.width && y < out.height
      ensures PixelShows(out, x, y, p, plan.crop.x, plan.crop.y,
                         Origin(plan.crop.width, plan.crop.height, plan.mirror, turns, x, y), plan.quality)
    {
      EveryPixel(c, plan, k, turns, x, y);
    }
  }

  // The bytes are the encoder's, in the plan's format, for the rendered picture.
  lemma ProducedIs(p: Picture, plan: Plan, k: Kernels)
    requires 1 <= p.channels <= 4 && k.Sound() && Produced(p, plan, k).Success?
    ensures Rendered(p, plan, k).Some?
    ensures k.encode(Pack(Rendered(p, plan, k).value), plan.format) == Some(Produced(p, plan, k).value)
  {
  }

  // An unscaled plan of quarter turns: the bytes are the encoder's for a picture
  // whose every pixel is the image's from its place in the crop.
  lemma WholePixels(p: Picture, plan: Plan, k: Kernels, turns: nat) returns (out: Picture)
    requires 1 <= p.channels <= 4 && k.Sound() && plan.crop.Inside(p.width, p.height)
    requires plan.degrees.Value() == 90.0 * turns as real
    requires (plan.outW, plan.outH) == (plan.crop.width, plan.crop.height) && WholeOutcome(p, plan, k).Success?
    ensures 1 <= out.channels <= 4 && k.encode(Pack(out), plan.format) == Some(WholeOutcome(p, plan, k).value)
    ensures Shows(out, p, plan.crop.x, plan.crop.y, plan.crop.width, plan.crop.height, plan.quality, plan.mirror, turns)
  {
    var c := Crop(p, plan.crop.x, plan.crop.y, plan.crop.width, plan.crop.height);
    out := Finished(c, plan, k);
    ProducedIs(c, plan, k);
    FinishedShows(p, plan, k, turns);
  }

  // Its dimensions are the plan's, swapped by an odd number of quarter turns.
  lemma OutputShape(p: Picture, plan: Plan, k: Kernels)
    requires 1 <= p.channels <= 4 && k.Sound() && IsQuarterTurn(plan.degrees)
    ensures Rendered(p, plan, k).Some? ==>
      (Rendered(p, plan, k).value.width, Rendered(p, plan, k).value.height)
      == if Turns(plan.degrees) % 2 == 0 then (plan.outW, plan.outH) else (plan.outH, plan.outW)
  {
    ColourMayComeLast(p, plan, k);
    if Rendered(p, plan, k).Some? {
      var sized := Resized(p, plan.outW, plan.outH, k).value;
      TurnedSides(MirroredIf(sized, plan.mirror), Turns(plan.degrees));
    }
  }

  // An unscaled, unturned, unrecoloured request gives the pixels back untouched.
  lemma UntouchedRequest(p: Picture, plan: Plan, k: Kernels)
    requires 1 <= p.channels <= 4 && k.Sound()
    requires p.width == plan.outW && p.height == plan.outH && !plan.mirror && plan.degrees.units == 0
    requires plan.quality.Default? || plan.quality.Color?
    ensures Rendered(p, plan, k) == Some(p)
  {
  }
}
