// Per-pixel colour changes, and that they commute with every change of place.
module Colors {
  import opened Images

  // BT.601 luma, rounded half up; the clamp to a byte never acts.
  function Luma(red: Byte, green: Byte, blue: Byte): Byte {
    var luma := 0.114 * blue as real + (0.587 * green as real + 0.299 * red as real);
    (luma + 0.5).Floor
  }

  // 255 times the blend of a level with white.
  function Blend(value: Byte, alpha: Byte): nat {
    value * alpha + 255 * (255 - alpha)
  }

  // One channel of source over white, in integers.
  function Composite(value: Byte, alpha: Byte): Byte {
    BlendBounds(value, alpha);
    (Blend(value, alpha) + 127) / 255
  }

  // The blend lies between the level and white, so the 16-bit numerator of the
  // rounded division cannot overflow and the quotient is a byte.
  lemma BlendBounds(value: Byte, alpha: Byte)
    ensures 255 * value <= Blend(value, alpha) <= 255 * 255
    ensures Blend(value, alpha) + 127 < 0x1_0000
  {
    BlendSplits(value, alpha);
    ProductAtLeastZero(255 - value, alpha);
    ProductAtLeastZero(255 - value, 255 - alpha);
  }

  lemma BlendSplits(value: int, alpha: int)
    ensures value * alpha + 255 * (255 - alpha) == 255 * value + (255 - value) * (255 - alpha)
                                                == 255 * 255 - (255 - value) * alpha
  {
  }

  lemma ProductAtLeastZero(a: nat, b: nat)
    ensures a * b >= 0
  {
  }

  function Threshold(v: Byte): Byte {
    if v >= 128 then 255 else 0
  }

  // One, two, three and four bytes: gray, gray with alpha, RGB, RGB with alpha.
  function GrayPixel(p: Pixel): (r: Pixel)
    ensures |r| == GrayChannels(|p|)
  {
    if |p| == 3 then [Luma(p[0], p[1], p[2])]
    else if |p| == 4 then [Luma(p[0], p[1], p[2]), p[3]]
    else p
  }

  function GrayChannels(c: nat): nat {
    if c == 3 then 1 else if c == 4 then 2 else c
  }

  // The first byte of a gray pixel thrown to black or white; alpha is kept.
  function Bilevel(p: Pixel): (r: Pixel)
    ensures |r| == |p|
  {
    if p == [] then p else p[0 := Threshold(p[0])]
  }

  function BitonalPixel(p: Pixel): Pixel {
    Bilevel(GrayPixel(p))
  }

  function FlatPixel(p: Pixel): (r: Pixel)
    ensures |r| == FlatChannels(|p|)
  {
    if |p| == 2 then [Composite(p[0], p[1])]
    else if |p| == 4 then [Composite(p[0], p[3]), Composite(p[1], p[3]), Composite(p[2], p[3])]
    else p
  }

  function FlatChannels(c: nat): nat {
    if c == 2 then 1 else if c == 4 then 3 else c
  }

  // ----- what the conversions mean -----

  // The level a pixel is seen at: its own, or the weighted mean of its colours.
  function Brightness(p: Pixel): real
    requires p != []
  {
    if |p| < 3 then p[0] as real else 0.299 * p[0] as real + 0.587 * p[1] as real + 0.114 * p[2] as real
  }

  // n is the whole number nearest to x, halves going up.
  predicate Nearest(n: int, x: real) {
    n as real - 0.5 <= x < n as real + 0.5
  }

  // One byte, or two of which the second is the alpha there was.
  predicate OneLevel(was: Pixel, now: Pixel) {
    && |was| > 0 && |now| == (if |was| % 2 == 0 then 2 else 1)
    && (|was| % 2 == 0 ==> now[1] == was[|was| - 1])
  }

  predicate IsGrayOf(was: Pixel, now: Pixel) {
    OneLevel(was, now) && Nearest(now[0], Brightness(was))
  }

  predicate IsBitonalOf(was: Pixel, now: Pixel) {
    OneLevel(was, now) && now[0] == if Brightness(was) >= 127.5 then 255 else 0
  }

  // Every colour byte blended with white by the alpha, which is dropped.
  predicate IsFlatOf(was: Pixel, now: Pixel) {
    if |was| % 2 == 1 then now == was
    else
      && |was| > 0 && |now| == |was| - 1
      && forall c {:trigger now[c]} :: 0 <= c < |now| ==> Nearest(now[c], Over(was[c], was[|was| - 1]))
  }

  function Over(value: Byte, alpha: Byte): real {
    var opacity := alpha as real / 255.0;
    opacity * value as real + (1.0 - opacity) * 255.0
  }

  // Luma is the weighted mean of the channels, rounded.
  lemma LumaIsNear(red: Byte, green: Byte, blue: Byte)
    ensures Nearest(Luma(red, green, blue), Brightness([red, green, blue]))
  {
  }

  lemma GrayIs(p: Pixel)
    requires 1 <= |p| <= 4
    ensures IsGrayOf(p, GrayPixel(p))
  {
    if |p| >= 3 {
      LumaIsNear(p[0], p[1], p[2]);
    }
  }

  lemma BitonalIs(p: Pixel)
    requires 1 <= |p| <= 4
    ensures IsBitonalOf(p, BitonalPixel(p))
  {
    GrayIs(p);
  }

  lemma CompositeIsNear(value: Byte, alpha: Byte)
    ensures Nearest(Composite(value, alpha), Over(value, alpha))
  {
    BlendBounds(value, alpha);
    OverIsBlend(value, alpha);
    CompositeOverWhite(value, alpha);
    NearestQuotient(Composite(value, alpha), Blend(value, alpha));
  }

  lemma OverIsBlend(value: Byte, alpha: Byte)
    ensures Over(value, alpha) == Blend(value, alpha) as real / 255.0
  {
    var opacity := alpha as real / 255.0;
    assert opacity * 255.0 == alpha as real;
    assert (value * alpha) as real == value as real * alpha as real;
  }

  lemma NearestQuotient(n: nat, blend: nat)
    requires 255 * n <= blend + 127 && blend <= 255 * n + 127
    ensures Nearest(n, blend as real / 255.0)
  {
  }

  lemma FlatIs(p: Pixel)
    requires 1 <= |p| <= 4
    ensures IsFlatOf(p, FlatPixel(p))
  {
    if |p| % 2 == 0 {
      forall c | 0 <= c < |p| - 1
        ensures Nearest(FlatPixel(p)[c], Over(p[c], p[|p| - 1]))
      {
        CompositeIsNear(p[c], p[|p| - 1]);
      }
    }
  }

  // A neutral pixel keeps its level, and no luma leaves its channels' range.
  lemma LumaBetweenChannels(red: Byte, green: Byte, blue: Byte, lo: Byte, hi: Byte)
    requires lo <= red <= hi && lo <= green <= hi && lo <= blue <= hi
    ensures lo <= Luma(red, green, blue) <= hi
  {
  }

  // The nearest level to the blend: opaque keeps the colour, transparent is
  // white, and nothing gets darker.
  lemma CompositeOverWhite(value: Byte, alpha: Byte)
    ensures value <= Composite(value, alpha)
    ensures -127 <= 255 * Composite(value, alpha) - Blend(value, alpha) <= 127
    ensures alpha == 255 ==> Composite(value, alpha) == value
    ensures alpha == 0 ==> Composite(value, alpha) == 255
  {
    BlendBounds(value, alpha);
    assert Blend(value, 255) == 255 * value;
    assert Blend(value, 0) == 255 * 255;
  }

  lemma ConversionsSettle(p: Pixel)
    ensures GrayPixel(GrayPixel(p)) == GrayPixel(p)
    ensures BitonalPixel(BitonalPixel(p)) == BitonalPixel(p) && BitonalPixel(GrayPixel(p)) == BitonalPixel(p)
    ensures FlatPixel(FlatPixel(p)) == FlatPixel(p)
  {
  }

  // ----- colour and place -----

  ghost predicate Yields(f: Pixel -> Pixel, c: nat, out: nat) {
    forall p :: |p| == c ==> |f(p)| == out
  }

  ghost function Mapped(i: Picture, f: Pixel -> Pixel, out: nat): (r: Picture)
    requires Yields(f, i.channels, out)
    ensures r.width == i.width && r.height == i.height && r.channels == out
    ensures forall y, x {:trigger r.rows[y][x]} :: 0 <= y < r.height && 0 <= x < r.width ==> r.rows[y][x] == f(i.rows[y][x])
  {
    Tabulate(i.width, i.height, out,
             (x: nat, y: nat) requires x < i.width && y < i.height => f(i.rows[y][x]))
  }

  lemma MapThenMirror(i: Picture, f: Pixel -> Pixel, out: nat)
    requires Yields(f, i.channels, out)
    ensures Mirrored(Mapped(i, f, out)) == Mapped(Mirrored(i), f, out)
  {
    SamePicture(Mirrored(Mapped(i, f, out)), Mapped(Mirrored(i), f, out));
  }

  lemma MapThenQuarter(i: Picture, f: Pixel -> Pixel, out: nat)
    requires Yields(f, i.channels, out)
    ensures QuarterTurned(Mapped(i, f, out)) == Mapped(QuarterTurned(i), f, out)
  {
    SamePicture(QuarterTurned(Mapped(i, f, out)), Mapped(QuarterTurned(i), f, out));
  }

  lemma MapThenCrop(i: Picture, f: Pixel -> Pixel, out: nat, x: nat, y: nat, w: nat, h: nat)
    requires Yields(f, i.channels, out) && Contains(i, x, y, w, h)
    ensures Crop(Mapped(i, f, out), x, y, w, h) == Mapped(Crop(i, x, y, w, h), f, out)
  {
    SamePicture(Crop(Mapped(i, f, out), x, y, w, h), Mapped(Crop(i, x, y, w, h), f, out));
  }

  // Any per-pixel change commutes with any number of quarter turns.
  lemma MapThenTurn(i: Picture, f: Pixel -> Pixel, out: nat, k: nat)
    requires Yields(f, i.channels, out)
    ensures Turned(i, k).channels == i.channels
    ensures Turned(Mapped(i, f, out), k) == Mapped(Turned(i, k), f, out)
  {
    TurnedSides(i, k);
    TurnsOfQuarters(i, k);
    TurnsOfQuarters(Mapped(i, f, out), k);
    MapThenQuarter(i, f, out);
    MapThenHalf(i, f, out);
    MapThenHalf(QuarterTurned(i), f, out);
  }

  lemma MapThenHalf(i: Picture, f: Pixel -> Pixel, out: nat)
    requires Yields(f, i.channels, out)
    ensures HalfTurned(Mapped(i, f, out)) == Mapped(HalfTurned(i), f, out)
  {
    SamePicture(HalfTurned(Mapped(i, f, out)), Mapped(HalfTurned(i), f, out));
  }
}
