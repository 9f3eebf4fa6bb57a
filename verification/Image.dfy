// Pictures as values: rows of pixels, the symmetries of the rectangle, crops,
// and the packing of a picture into one row-major byte string.
module Images {
  import opened Iteration

  type Byte = n: nat | n < 256

  type Pixel = seq<Byte>

  datatype Image = Image(width: nat, height: nat, channels: nat, rows: seq<seq<Pixel>>) {
    ghost predicate Valid() {
      && |rows| == height
      && (forall y :: 0 <= y < height ==> |rows[y]| == width)
      && (forall y, x :: 0 <= y < height && 0 <= x < width ==> |rows[y][x]| == channels)
    }

    ghost predicate SameShape(other: Image) {
      width == other.width && height == other.height && channels == other.channels
    }
  }

  type Picture = i: Image | i.Valid() ghost witness Image(0, 0, 0, [])

  lemma SamePicture(a: Picture, b: Picture)
    requires a.SameShape(b)
    requires forall y, x :: 0 <= y < a.height && 0 <= x < a.width ==> a.rows[y][x] == b.rows[y][x]
    ensures a == b
  {
    forall y | 0 <= y < a.height
      ensures a.rows[y] == b.rows[y]
    {
    }
  }

  // The picture with a given pixel at every place.
  function Tabulate(width: nat, height: nat, channels: nat, pixel: (nat, nat) --> Pixel): (i: Picture)
    requires forall x: nat, y: nat :: x < width && y < height ==> pixel.requires(x, y) && |pixel(x, y)| == channels
    ensures i.width == width && i.height == height && i.channels == channels
    ensures forall y, x :: 0 <= y < height && 0 <= x < width ==> i.rows[y][x] == pixel(x, y)
  {
    Image(width, height, channels,
          seq(height, y requires 0 <= y < height => seq(width, x requires 0 <= x < width => pixel(x, y))))
  }

  ghost function Mirrored(i: Picture): (r: Picture)
    ensures r.SameShape(i)
    ensures forall y, x {:trigger r.rows[y][x]} :: 0 <= y < r.height && 0 <= x < r.width ==>
      r.rows[y][x] == i.rows[y][i.width - 1 - x]
  {
    Tabulate(i.width, i.height, i.channels,
             (x: nat, y: nat) requires x < i.width && y < i.height => i.rows[y][i.width - 1 - x])
  }

  // Clockwise: the left column, read upwards, becomes the top row.
  ghost function QuarterTurned(i: Picture): (r: Picture)
    ensures r.width == i.height && r.height == i.width && r.channels == i.channels
    ensures forall y, x {:trigger r.rows[y][x]} :: 0 <= y < r.height && 0 <= x < r.width ==>
      r.rows[y][x] == i.rows[i.height - 1 - x][y]
  {
    Tabulate(i.height, i.width, i.channels,
             (x: nat, y: nat) requires x < i.height && y < i.width => i.rows[i.height - 1 - x][y])
  }

  ghost function HalfTurned(i: Picture): (r: Picture)
    ensures r.SameShape(i)
    ensures forall y, x {:trigger r.rows[y][x]} :: 0 <= y < r.height && 0 <= x < r.width ==>
      r.rows[y][x] == i.rows[i.height - 1 - y][i.width - 1 - x]
  {
    Tabulate(i.width, i.height, i.channels,
             (x: nat, y: nat) requires x < i.width && y < i.height => i.rows[i.height - 1 - y][i.width - 1 - x])
  }

  // k quarter turns clockwise.
  ghost function Turned(i: Picture, k: nat): Picture {
    Iterate(QuarterTurned, k, i)
  }

  // ----- the symmetries of the rectangle -----

  lemma TwoQuartersAreHalf(i: Picture)
    ensures QuarterTurned(QuarterTurned(i)) == HalfTurned(i)
  {
    SamePicture(QuarterTurned(QuarterTurned(i)), HalfTurned(i));
  }

  lemma TwoHalvesAreNone(i: Picture)
    ensures HalfTurned(HalfTurned(i)) == i
  {
    SamePicture(HalfTurned(HalfTurned(i)), i);
  }

  lemma MirrorTwice(i: Picture)
    ensures Mirrored(Mirrored(i)) == i
  {
    SamePicture(Mirrored(Mirrored(i)), i);
  }

  lemma FourQuartersAreNone(i: Picture)
    ensures QuarterTurned(QuarterTurned(QuarterTurned(QuarterTurned(i)))) == i
  {
    TwoQuartersAreHalf(i);
    TwoQuartersAreHalf(HalfTurned(i));
    TwoHalvesAreNone(i);
  }

  // A mirror between two turns undoes them: it reverses the sense of a turn.
  lemma MirrorReversesTurn(i: Picture)
    ensures QuarterTurned(Mirrored(QuarterTurned(i))) == Mirrored(i)
  {
    SamePicture(QuarterTurned(Mirrored(QuarterTurned(i))), Mirrored(i));
  }

  lemma FullTurns(i: Picture, k: nat)
    ensures Turned(i, k) == Turned(i, k % 4)
  {
    QuarterPeriod();
    IteratePeriod(QuarterTurned, 4, k, i);
  }

  lemma TurnedUnfolds(i: Picture, k: nat)
    requires k < 4
    ensures Turned(i, k) == match k
      case 0 => i
      case 1 => QuarterTurned(i)
      case 2 => QuarterTurned(QuarterTurned(i))
      case _ => QuarterTurned(QuarterTurned(QuarterTurned(i)))
  {
    IterateThree(QuarterTurned, i);
  }

  // The four turns there are.
  lemma TurnsOfQuarters(i: Picture, k: nat)
    ensures Turned(i, k) == match k % 4
      case 0 => i
      case 1 => QuarterTurned(i)
      case 2 => HalfTurned(i)
      case _ => HalfTurned(QuarterTurned(i))
  {
    FullTurns(i, k);
    TurnedUnfolds(i, k % 4);
    TwoQuartersAreHalf(i);
    TwoQuartersAreHalf(QuarterTurned(i));
  }

  datatype Place = Place(x: int, y: int)

  // The pixel at (x, y) is the one at another place of another picture.
  ghost predicate ShowsAt(out: Picture, x: nat, y: nat, p: Picture, at: Place) {
    && x < out.width && y < out.height && 0 <= at.x < p.width && 0 <= at.y < p.height
    && out.rows[y][x] == p.rows[at.y][at.x]
  }

  // Where the pixel at (x, y) comes from in a picture of w by h turned clockwise.
  function TurnOrigin(w: nat, h: nat, turns: nat, x: nat, y: nat): Place {
    match turns % 4
    case 0 => Place(x, y)
    case 1 => Place(y, h - 1 - x)
    case 2 => Place(w - 1 - x, h - 1 - y)
    case _ => Place(w - 1 - y, x)
  }

  lemma QuarterShows(p: Picture, x: nat, y: nat)
    requires x < p.height && y < p.width
    ensures ShowsAt(QuarterTurned(p), x, y, p, Place(y, p.height - 1 - x))
  {
  }

  lemma HalfShows(p: Picture, x: nat, y: nat)
    requires x < p.width && y < p.height
    ensures ShowsAt(HalfTurned(p), x, y, p, Place(p.width - 1 - x, p.height - 1 - y))
  {
  }

  lemma ShowsThrough(out: Picture, x: nat, y: nat, mid: Picture, s: nat, t: nat, p: Picture, at: Place)
    requires ShowsAt(out, x, y, mid, Place(s, t)) && ShowsAt(mid, s, t, p, at)
    ensures ShowsAt(out, x, y, p, at)
  {
  }

  lemma ThreeQuartersShow(p: Picture, x: nat, y: nat)
    requires x < p.height && y < p.width
    ensures ShowsAt(HalfTurned(QuarterTurned(p)), x, y, p, Place(p.width - 1 - y, x))
  {
    var once := QuarterTurned(p);
    HalfShows(once, x, y);
    QuarterShows(p, p.height - 1 - x, p.width - 1 - y);
    ShowsThrough(HalfTurned(once), x, y, once, p.height - 1 - x, p.width - 1 - y, p, Place(p.width - 1 - y, x));
  }

  lemma TurnIs(p: Picture, turns: nat, r: Picture)
    requires r == match turns % 4
      case 0 => p
      case 1 => QuarterTurned(p)
      case 2 => HalfTurned(p)
      case _ => HalfTurned(QuarterTurned(p))
    ensures Turned(p, turns) == r
  {
    TurnsOfQuarters(p, turns);
  }

  lemma OddTurnShows(p: Picture, turns: nat, x: nat, y: nat)
    requires turns % 2 == 1 && x < p.height && y < p.width
    ensures turns % 4 == 1 ==> ShowsAt(Turned(p, turns), x, y, p, Place(y, p.height - 1 - x))
    ensures turns % 4 == 3 ==> ShowsAt(Turned(p, turns), x, y, p, Place(p.width - 1 - y, x))
  {
    if turns % 4 == 1 {
      QuarterShows(p, x, y);
      TurnIs(p, turns, QuarterTurned(p));
    } else {
      ThreeQuartersShow(p, x, y);
      TurnIs(p, turns, HalfTurned(QuarterTurned(p)));
    }
  }

  lemma EvenTurnShows(p: Picture, turns: nat, x: nat, y: nat)
    requires turns % 2 == 0 && x < p.width && y < p.height
    ensures turns % 4 == 0 ==> ShowsAt(Turned(p, turns), x, y, p, Place(x, y))
    ensures turns % 4 == 2 ==> ShowsAt(Turned(p, turns), x, y, p, Place(p.width - 1 - x, p.height - 1 - y))
  {
    if turns % 4 == 0 {
      TurnIs(p, turns, p);
    } else {
      HalfShows(p, x, y);
      TurnIs(p, turns, HalfTurned(p));
    }
  }

  lemma TurnedSides(p: Picture, turns: nat)
    ensures (Turned(p, turns).width, Turned(p, turns).height)
         == if turns % 2 == 0 then (p.width, p.height) else (p.height, p.width)
    ensures Turned(p, turns).channels == p.channels
  {
    TurnsOfQuarters(p, turns);
  }

  // The place any number of clockwise quarter turns takes each pixel from.
  lemma TurnedFrom(p: Picture, turns: nat, x: nat, y: nat)
    requires if turns % 2 == 0 then x < p.width && y < p.height else x < p.height && y < p.width
    ensures ShowsAt(Turned(p, turns), x, y, p, TurnOrigin(p.width, p.height, turns, x, y))
  {
    if turns % 2 == 0 {
      EvenTurnShows(p, turns, x, y);
    } else {
      OddTurnShows(p, turns, x, y);
    }
  }

  // Turns add modulo four.
  lemma TurnsAddModFour(i: Picture, a: nat, b: nat)
    ensures Turned(Turned(i, a), b) == Turned(i, (a + b) % 4)
  {
    QuarterPeriod();
    IterateAdd(QuarterTurned, a, b, i);
    IteratePeriod(QuarterTurned, 4, a + b, i);
  }

  lemma QuarterPeriod()
    ensures forall i: Picture :: Iterate(QuarterTurned, 4, i) == i
  {
    forall i: Picture
      ensures Iterate(QuarterTurned, 4, i) == i
    {
      IterateFour(QuarterTurned, i);
      FourQuartersAreNone(i);
    }
  }

  // Turning after a mirror is mirroring after the opposite turn.
  lemma TurnAfterMirror(i: Picture, k: nat)
    requires k <= 4
    ensures Turned(Mirrored(i), k) == Mirrored(Turned(i, 4 - k))
  {
    QuarterPeriod();
    forall p: Picture
      ensures QuarterTurned(Mirrored(QuarterTurned(p))) == Mirrored(p)
    {
      MirrorReversesTurn(p);
    }
    IterateConjugate(QuarterTurned, Mirrored, 4, k, i);
  }

  // ----- a mirror, column by column -----

  // Where column x reads from once two columns have traded places.
  function Traded(x: nat, left: nat, right: nat): nat {
    if x == left then right else if x == right then left else x
  }

  // Two pixels of row y have traded places.
  ghost predicate TradedColumns(now: Picture, was: Picture, y: nat, left: nat, right: nat) {
    && now.SameShape(was) && left < now.width && right < now.width
    && forall v, x {:trigger now.rows[v][x]} :: 0 <= v < now.height && 0 <= x < now.width ==>
      now.rows[v][x] == was.rows[v][if v == y then Traded(x, left, right) else x]
  }

  // Row y is mirrored outside columns left to right.
  ghost predicate MirroredOutside(now: Picture, was: Picture, y: nat, left: int, right: int) {
    && now.SameShape(was)
    && forall v, x {:trigger now.rows[v][x]} :: 0 <= v < now.height && 0 <= x < now.width ==>
      now.rows[v][x] == was.rows[v][if v == y && !(left <= x <= right) then now.width - 1 - x else x]
  }

  lemma MirrorStep(was: Picture, mid: Picture, now: Picture, y: nat, left: nat, right: nat)
    requires MirroredOutside(mid, was, y, left, right) && TradedColumns(now, mid, y, left, right)
    requires left < right && left + right == was.width - 1
    ensures MirroredOutside(now, was, y, left + 1, right - 1)
  {
    forall v, x | 0 <= v < now.height && 0 <= x < now.width
      ensures now.rows[v][x] == was.rows[v][if v == y && !(left + 1 <= x <= right - 1) then now.width - 1 - x else x]
    {
      assert now.rows[v][x] == mid.rows[v][if v == y then Traded(x, left, right) else x];
    }
  }

  lemma MirroredThrough(now: Picture, was: Picture, y: nat, left: nat, right: int)
    requires MirroredOutside(now, was, y, left, right) && left >= right && left + right == was.width - 1
    ensures MirroredOutside(now, was, y, 0, -1)
  {
  }

  // The first `rows` rows are mirrored.
  ghost predicate MirroredRows(now: Picture, was: Picture, rows: nat) {
    && now.SameShape(was)
    && forall v, x {:trigger now.rows[v][x]} :: 0 <= v < now.height && 0 <= x < now.width ==>
      now.rows[v][x] == was.rows[v][if v < rows then now.width - 1 - x else x]
  }

  lemma MirroredNext(was: Picture, mid: Picture, now: Picture, y: nat)
    requires MirroredRows(mid, was, y) && MirroredOutside(now, mid, y, 0, -1)
    ensures MirroredRows(now, was, y + 1)
  {
    forall v, x | 0 <= v < now.height && 0 <= x < now.width
      ensures now.rows[v][x] == was.rows[v][if v < y + 1 then now.width - 1 - x else x]
    {
      assert now.rows[v][x] == mid.rows[v][if v == y then now.width - 1 - x else x];
    }
  }

  // ----- crops and pastes -----

  ghost predicate Contains(i: Image, x: nat, y: nat, w: nat, h: nat) {
    x + w <= i.width && y + h <= i.height
  }

  function Crop(i: Picture, x: nat, y: nat, w: nat, h: nat): (r: Picture)
    requires Contains(i, x, y, w, h)
    ensures r.width == w && r.height == h && r.channels == i.channels
    ensures forall v, u {:trigger r.rows[v][u]} :: 0 <= v < h && 0 <= u < w ==> r.rows[v][u] == i.rows[y + v][x + u]
  {
    Tabulate(w, h, i.channels,
             (u: nat, v: nat) requires u < w && v < h && Contains(i, x, y, w, h) => i.rows[y + v][x + u])
  }

  // `r` is the w-by-h rectangle of `i` at (x, y).
  ghost predicate IsCrop(r: Picture, i: Picture, x: nat, y: nat, w: nat, h: nat) {
    Contains(i, x, y, w, h) && r == Crop(i, x, y, w, h)
  }

  // Whether a place is covered by a w-by-h rectangle put at (left, top).
  predicate Covers(left: nat, top: nat, w: nat, h: nat, x: nat, y: nat) {
    left <= x < left + w && top <= y < top + h
  }

  // `now` is `was` with a w-by-h rectangle of `from` laid over it at (left, top).
  ghost predicate IsPaste(now: Picture, was: Picture, from: Picture, srcX: nat, srcY: nat, w: nat, h: nat,
                          left: nat, top: nat) {
    && now.SameShape(was) && Contains(from, srcX, srcY, w, h) && Contains(was, left, top, w, h)
    && forall y, x {:trigger now.rows[y][x]} :: 0 <= y < now.height && 0 <= x < now.width ==>
      now.rows[y][x] == if Covers(left, top, w, h, x, y) then from.rows[srcY + (y - top)][srcX + (x - left)]
                        else was.rows[y][x]
  }

  // A rectangle pasted over a blank of its own size is the crop.
  lemma PasteWhole(now: Picture, blank: Picture, from: Picture, x: nat, y: nat, w: nat, h: nat)
    requires blank.width == w && blank.height == h && blank.channels == from.channels
    requires IsPaste(now, blank, from, x, y, w, h, 0, 0)
    ensures IsCrop(now, from, x, y, w, h)
  {
    SamePicture(now, Crop(from, x, y, w, h));
  }
}
