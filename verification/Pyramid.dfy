// The tiled pyramid master: opening it, choosing a level, and assembling any
// rectangle of a level from the tiles it touches.
module Pyramids {
  import opened Wrappers
  import opened Arithmetic
  import opened Decimals
  import opened Images
  import opened Buffers
  import opened Rasters
  import opened Tiles
  import opened Levels
  import opened Eval

  datatype Reason = NotTiled | NotAPyramid | SeekFailed | BadTile | NoSuchLevel | OutsideLevel

  datatype CodecError = Unsupported(reason: Reason) | Corrupt(reason: Reason) | RasterFailed(error: RasterError)

  // One directory of a TIFF file: a picture and its tile size.
  datatype Ifd = Ifd(picture: Picture, tileWidth: U32, tileHeight: U32, tiled: bool) {
    ghost predicate Valid() {
      && 0 < picture.width <= U32_MAX && 0 < picture.height <= U32_MAX && 1 <= picture.channels <= 4
      && 0 < tileWidth && 0 < tileHeight
    }

    function TilesAcross(): nat
      requires tileWidth > 0
    {
      DivCeil(picture.width, tileWidth)
    }

    function TilesDown(): nat
      requires tileHeight > 0
    {
      DivCeil(picture.height, tileHeight)
    }

    // Tiles are numbered row by row.
    function TileNumber(row: nat, col: nat): nat
      requires tileWidth > 0
    {
      Edge(row, TilesAcross()) + col
    }

    predicate HasTile(index: nat)
      requires tileWidth > 0 && tileHeight > 0
    {
      index < Edge(TilesDown(), TilesAcross())
    }
  }

  // The placed extent of a tile: edge tiles are clipped to the picture.
  datatype Extent = Extent(left: nat, top: nat, width: nat, height: nat) {
    predicate Holds(x: nat, y: nat) {
      left <= x < left + width && top <= y < top + height
    }
  }

  function TileExtent(width: nat, height: nat, tileWidth: nat, tileHeight: nat, row: nat, col: nat): Extent {
    var left, top := Edge(col, tileWidth), Edge(row, tileHeight);
    Extent(left, top, Min(tileWidth, Max(width, left) - left), Min(tileHeight, Max(height, top) - top))
  }

  // Tile `index` of a directory: its row and column, and its clipped extent.
  function TileOf(ifd: Ifd, index: nat): Extent
    requires ifd.tileWidth > 0 && ifd.TilesAcross() > 0
  {
    TileExtent(ifd.picture.width, ifd.picture.height, ifd.tileWidth, ifd.tileHeight,
               index / ifd.TilesAcross(), index % ifd.TilesAcross())
  }

  // An existing tile is a non-empty part of the picture.
  lemma TileInside(ifd: Ifd, index: nat)
    requires ifd.Valid() && ifd.HasTile(index)
    ensures ifd.TilesAcross() > 0
    ensures var e := TileOf(ifd, index);
      e.width > 0 && e.height > 0 && Contains(ifd.picture, e.left, e.top, e.width, e.height)
  {
    EdgeCovers(ifd.picture.width, ifd.tileWidth, 0);
    QuotientBelow(index, ifd.TilesDown(), ifd.TilesAcross());
    EdgeCovers(ifd.picture.width, ifd.tileWidth, index % ifd.TilesAcross());
    EdgeCovers(ifd.picture.height, ifd.tileHeight, index / ifd.TilesAcross());
  }

  lemma EdgeCovers(full: nat, tile: nat, k: nat)
    requires full > 0 && tile > 0
    ensures DivCeil(full, tile) > 0
    ensures k < DivCeil(full, tile) ==> Edge(k, tile) < full
  {
    DivCeilIff(full, tile, DivCeil(full, tile));
    if k < DivCeil(full, tile) {
      SlotsDisjoint(k, DivCeil(full, tile), tile);
    }
  }

  // The number of a tile of the grid finds that tile again.
  lemma TileNumbered(ifd: Ifd, row: nat, col: nat)
    requires ifd.Valid() && row < ifd.TilesDown() && col < ifd.TilesAcross()
    ensures ifd.HasTile(ifd.TileNumber(row, col))
    ensures TileOf(ifd, ifd.TileNumber(row, col))
         == TileExtent(ifd.picture.width, ifd.picture.height, ifd.tileWidth, ifd.tileHeight, row, col)
  {
    CellInGrid(col, row, ifd.TilesAcross(), ifd.TilesDown());
    UniqueRemainder(row, col, ifd.TilesAcross());
  }

  // The TIFF reader: at any time it is positioned at one directory, and reads
  // that directory's tiles. A seek to a broken directory fails and leaves it at
  // `stranded`; `damaged` lists the tiles, by directory and number, that cannot
  // be decoded.
  class TiffDecoder {
    const ifds: seq<Ifd>
    const broken: set<nat>
    const stranded: nat
    const damaged: set<(nat, nat)>
    var position: nat

    ghost predicate Valid()
      reads this
    {
      && |ifds| > 0 && position < |ifds| && stranded < |ifds|
      && forall k :: 0 <= k < |ifds| ==> ifds[k].Valid()
    }

    constructor (ifds: seq<Ifd>, broken: set<nat>, stranded: nat, damaged: set<(nat, nat)>)
      requires |ifds| > 0 && stranded < |ifds| && forall k :: 0 <= k < |ifds| ==> ifds[k].Valid()
      ensures Valid() && position == 0
      ensures (this.ifds, this.broken, this.stranded, this.damaged) == (ifds, broken, stranded, damaged)
    {
      this.ifds, this.broken, this.stranded, this.damaged, position := ifds, broken, stranded, damaged, 0;
    }

    method SeekToImage(ifd: nat) returns (ok: bool)
      requires Valid() && ifd < |ifds|
      modifies this
      ensures Valid() && ok == (ifd !in broken)
      ensures position == if ok then ifd else stranded
    {
      ok := ifd !in broken;
      position := if ok then ifd else stranded;
    }

    // Tile `index` of the current directory, or the error of a tile that is not
    // there or does not decode.
    method ReadChunk(index: nat) returns (r: Result<Raster, CodecError>)
      requires Valid()
      ensures r.Failure? <==> !ifds[position].HasTile(index) || (position, index) in damaged
      ensures r.Failure? ==> r.error == Corrupt(BadTile)
      ensures r.Success? ==>
        && r.value.Valid() && fresh(r.value) && fresh(r.value.data) && ifds[position].TilesAcross() > 0
        && var e := TileOf(ifds[position], index);
        && (r.value.width, r.value.height) == (e.width, e.height)
        && IsCrop(r.value.pic, ifds[position].picture, e.left, e.top, e.width, e.height)
    {
      var ifd := ifds[position];
      if !ifd.HasTile(index) || (position, index) in damaged {
        return Failure(Corrupt(BadTile));
      }
      TileInside(ifd, index);
      var tile := RenderCrop(ifd.picture, TileOf(ifd, index));
      return Success(tile);
    }
  }

  // A packed copy of part of a picture.
  method RenderCrop(picture: Picture, e: Extent) returns (r: Raster)
    requires 1 <= picture.channels <= 4 && Contains(picture, e.left, e.top, e.width, e.height)
    ensures r.Valid() && fresh(r) && fresh(r.data) && (r.width, r.height) == (e.width, e.height)
    ensures IsCrop(r.pic, picture, e.left, e.top, e.width, e.height)
  {
    var part := Crop(picture, e.left, e.top, e.width, e.height);
    r := new Raster.FromBytes(e.width, e.height, picture.channels, Packing(part));
    UnpackPacking(part);
  }

  // ----- where the reader stands -----

  // The reader's directory, and the one the pyramid believes it to be.
  datatype Cursor = Cursor(position: nat, currentIfd: nat) {
    predicate InStep() {
      position == currentIfd
    }
  }

  // Whether asking for a directory needs no seek, or one that works.
  predicate Reachable(c: Cursor, target: nat, broken: set<nat>) {
    target == c.currentIfd || target !in broken
  }

  // What asking for a directory does to both.
  function Sought(c: Cursor, target: nat, broken: set<nat>, stranded: nat): Cursor {
    if c.currentIfd == target then c
    else if target in broken then Cursor(stranded, c.currentIfd)
    else Cursor(target, target)
  }

  function SoughtAll(c: Cursor, targets: seq<nat>, broken: set<nat>, stranded: nat): Cursor {
    if targets == [] then c
    else Sought(SoughtAll(c, targets[..|targets| - 1], broken, stranded), targets[|targets| - 1], broken, stranded)
  }

  // A reachable directory is the one then read from exactly when the pyramid was
  // not mistaken about it.
  lemma ReadsTargetIff(c: Cursor, target: nat, broken: set<nat>, stranded: nat)
    requires Reachable(c, target, broken)
    ensures Sought(c, target, broken, stranded).position == target <==> c.InStep() || target != c.currentIfd
  {
  }

  // Over any run of decodes whose seeks work, every region is read from the
  // directory asked for.
  lemma {:induction false} RunStaysInStep(c: Cursor, targets: seq<nat>, broken: set<nat>, stranded: nat)
    requires c.InStep() && forall k :: 0 <= k < |targets| ==> targets[k] !in broken
    ensures SoughtAll(c, targets, broken, stranded).InStep()
    ensures targets != [] ==> SoughtAll(c, targets, broken, stranded).position == targets[|targets| - 1]
  {
    if targets != [] {
      RunStaysInStep(c, targets[..|targets| - 1], broken, stranded);
    }
  }

  // A failed seek can leave it mistaken: the directory it was at is then read
  // from where the reader was stranded, until another one is asked for.
  lemma FailedSeekMisleads(c: Cursor, target: nat, other: nat, broken: set<nat>, stranded: nat)
    requires c.InStep() && target != c.currentIfd && target in broken && other != c.currentIfd && other !in broken
    ensures var lost := Sought(c, target, broken, stranded);
      && (lost.InStep() <==> stranded == c.currentIfd)
      && Sought(lost, c.currentIfd, broken, stranded).position == stranded
      && Sought(lost, other, broken, stranded).InStep()
  {
  }

  // ----- levels -----

  function LevelOf(ifds: seq<Ifd>, k: nat): Level
    requires k < |ifds| && 0 < ifds[k].picture.width <= U32_MAX && ifds[k].picture.height <= U32_MAX
  {
    Level(k, ifds[k].picture.width, ifds[k].picture.height, ifds[k].tileWidth, ifds[k].tileHeight,
          ScaleFactor(ifds[0].picture.width, ifds[k].picture.width))
  }

  ghost predicate Surveyed(ifds: seq<Ifd>, levels: seq<Level>) {
    && |levels| <= |ifds|
    && forall k {:trigger levels[k]} :: 0 <= k < |levels| ==> ifds[k].Valid() && levels[k] == LevelOf(ifds, k)
  }

  // The first thing wrong with the directories from the k-th on, in the order
  // they are surveyed.
  function SurveyError(ifds: seq<Ifd>, broken: set<nat>, k: nat): Option<CodecError>
    requires k < |ifds|
    decreases |ifds| - k
  {
    if !ifds[k].tiled then Some(Unsupported(NotTiled))
    else if k + 1 == |ifds| then None
    else if k + 1 in broken then Some(Corrupt(SeekFailed))
    else SurveyError(ifds, broken, k + 1)
  }

  // Why a file is not opened as a pyramid.
  function OpenError(ifds: seq<Ifd>, broken: set<nat>): Option<CodecError>
    requires |ifds| > 0
  {
    match SurveyError(ifds, broken, 0)
    case Some(e) => Some(e)
    case None => if Shrinking(ifds) then None else Some(Unsupported(NotAPyramid))
  }

  // A file opens exactly when every directory is tiled, every one after the first
  // can be sought, and they shrink.
  lemma OpensIff(ifds: seq<Ifd>, broken: set<nat>)
    requires |ifds| > 0
    ensures OpenError(ifds, broken).None? <==>
      && (forall k :: 0 <= k < |ifds| ==> ifds[k].tiled)
      && (forall k :: 0 < k < |ifds| ==> k !in broken)
      && Shrinking(ifds)
  {
    SurveyFinds(ifds, broken, 0);
  }

  lemma {:induction false} SurveyFinds(ifds: seq<Ifd>, broken: set<nat>, k: nat)
    requires k < |ifds|
    ensures SurveyError(ifds, broken, k).None? <==>
      && (forall j :: k <= j < |ifds| ==> ifds[j].tiled)
      && (forall j :: k < j < |ifds| ==> j !in broken)
    decreases |ifds| - k
  {
    if k + 1 < |ifds| {
      SurveyFinds(ifds, broken, k + 1);
    }
  }

  // The levels surveyed from these directories, and found to shrink.
  ghost predicate Pyramidal(ifds: seq<Ifd>, levels: seq<Level>) {
    && |levels| == |ifds| > 0 && Surveyed(ifds, levels) && NeighboursDescend(levels)
  }

  // They are a ladder: positive sizes, strictly shrinking, factors from the
  // widths.
  lemma LevelsAreLadder(ifds: seq<Ifd>, levels: seq<Level>)
    requires Pyramidal(ifds, levels)
    ensures Ladder(levels)
  {
    forall k | 0 <= k < |levels|
      ensures ifds[k].Valid() && levels[k] == LevelOf(ifds, k)
    {
      var level := levels[k];
    }
  }

  lemma LevelStands(ifds: seq<Ifd>, levels: seq<Level>, k: nat)
    requires Pyramidal(ifds, levels) && k < |levels|
    ensures ifds[k].Valid() && levels[k] == LevelOf(ifds, k)
  {
    var level := levels[k];
  }

  // The level a factor chooses stands for one of the directories, and a crop of
  // the image maps to a non-empty rectangle inside it.
  lemma ChosenStands(ifds: seq<Ifd>, levels: seq<Level>, crop: CropRect, needed: real)
    requires Pyramidal(ifds, levels) && crop.width > 0 && crop.height > 0
    ensures var level := LevelForScale(levels, needed);
      && level.scaleFactor > 0 && level.width > 0 && level.height > 0
      && level.ifd < |ifds| && level == levels[level.ifd] && 1 <= ifds[level.ifd].picture.channels <= 4
      && var g, picture := LevelRegion(level, crop), ifds[level.ifd].picture;
      && g.w > 0 && g.h > 0 && (level.width, level.height) == (picture.width, picture.height)
      && Contains(picture, g.x, g.y, g.w, g.h)
  {
    LevelsAreLadder(ifds, levels);
    var k := ChosenLevel(levels, needed);
    ChosenIsSound(levels, needed);
    assert levels[k] == LevelOf(ifds, k) && ifds[k].Valid();
    RegionInside(levels[k], crop);
  }

  // The tiles of a directory that a region touches.
  predicate Touches(ifd: Ifd, x: nat, y: nat, w: nat, h: nat, row: nat, col: nat)
    requires ifd.tileWidth > 0 && ifd.tileHeight > 0 && w > 0 && h > 0
  {
    && TileAt(x, ifd.tileWidth) <= col <= TileAt(x + w - 1, ifd.tileWidth)
    && TileAt(y, ifd.tileHeight) <= row <= TileAt(y + h - 1, ifd.tileHeight)
  }

  predicate Spoilt(ifd: Ifd, at: nat, damaged: set<(nat, nat)>, row: nat, col: nat)
    requires ifd.tileWidth > 0
  {
    (at, ifd.TileNumber(row, col)) in damaged
  }

  // What reading a region of a directory comes to: its first tile is read before
  // the output is made, so that tile's damage comes before the size, and the
  // damage of the others after it. Otherwise it is the crop.
  ghost function RegionOutcome(ifd: Ifd, at: nat, damaged: set<(nat, nat)>, x: nat, y: nat, w: nat, h: nat)
    : (r: Result<Picture, CodecError>)
    requires ifd.Valid() && w > 0 && h > 0 && Contains(ifd.picture, x, y, w, h)
    ensures r.Success? ==> r.value.channels == ifd.picture.channels
  {
    if Spoilt(ifd, at, damaged, TileAt(y, ifd.tileHeight), TileAt(x, ifd.tileWidth)) then Failure(Corrupt(BadTile))
    else if w * h * ifd.picture.channels > USIZE_MAX then Failure(RasterFailed(SizeOverflow))
    else if exists row: nat, col: nat {:trigger Spoilt(ifd, at, damaged, row, col)} ::
              Touches(ifd, x, y, w, h, row, col) && Spoilt(ifd, at, damaged, row, col)
    then Failure(Corrupt(BadTile))
    else Success(Crop(ifd.picture, x, y, w, h))
  }

  // What decoding a crop comes to, from directory `at`: a seek that fails, or the
  // mapped rectangle of the chosen level.
  ghost function CropOutcome(ifds: seq<Ifd>, broken: set<nat>, damaged: set<(nat, nat)>, levels: seq<Level>, at: nat,
                             crop: CropRect, needed: real)
    : (r: Result<Picture, CodecError>)
    requires Pyramidal(ifds, levels) && crop.width > 0 && crop.height > 0
    ensures r.Success? ==> 1 <= r.value.channels <= 4
  {
    ChosenStands(ifds, levels, crop, needed);
    var level := LevelForScale(levels, needed);
    var g := LevelRegion(level, crop);
    if level.ifd != at && level.ifd in broken then Failure(Corrupt(SeekFailed))
    else RegionOutcome(ifds[level.ifd], level.ifd, damaged, g.x, g.y, g.w, g.h)
  }

  // What is read, in whole numbers: from directory k, the one whose width is the
  // last that the factor's whole part meets, the only rectangle that covers the
  // crop at f image pixels a sample, f being the nearest to the ratio of widths.
  lemma CropReads(ifds: seq<Ifd>, broken: set<nat>, damaged: set<(nat, nat)>, levels: seq<Level>, at: nat, crop: CropRect,
                  needed: real, k: nat, f: nat, g: Region)
    requires Pyramidal(ifds, levels) && crop.width > 0 && crop.height > 0 && k < |ifds| && ifds[k].Valid()
    requires ShortOf(WholePart(needed), levels[k].width, levels[0].width)
    requires k + 1 == |levels| || !ShortOf(WholePart(needed), levels[k + 1].width, levels[0].width)
    requires IsNearest(f, levels[k].width, levels[0].width)
    requires 0 < g.w && 0 < g.h && Contains(ifds[k].picture, g.x, g.y, g.w, g.h)
    requires CoversAxis(g.x, g.w, crop.x, crop.width, f, ifds[k].picture.width)
    requires CoversAxis(g.y, g.h, crop.y, crop.height, f, ifds[k].picture.height)
    ensures CropOutcome(ifds, broken, damaged, levels, at, crop, needed)
         == if k != at && k in broken then Failure(Corrupt(SeekFailed))
            else RegionOutcome(ifds[k], k, damaged, g.x, g.y, g.w, g.h)
  {
    LevelsAreLadder(ifds, levels);
    LevelStands(ifds, levels, k);
    ChoiceIff(levels, needed, k);
    FactorIs(levels, k, f);
    LadderRung(levels, k);
    RegionIff(levels[k], crop, g);
  }

  // No tile read so far, up to tile `col` of `row`, was damaged.
  ghost predicate Clear(ifd: Ifd, at: nat, damaged: set<(nat, nat)>, firstRow: nat, row: nat, firstCol: nat, lastCol: nat,
                        col: nat)
    requires ifd.tileWidth > 0
  {
    forall r: nat, c: nat {:trigger Spoilt(ifd, at, damaged, r, c)} ::
      firstRow <= r && firstCol <= c <= lastCol && (r < row || (r == row && c < col)) ==> !Spoilt(ifd, at, damaged, r, c)
  }

  // The region read up to tile `col` of `row`: every tile before was good, and
  // `out` shows what they hold.
  ghost predicate Reached(out: Picture, ifd: Ifd, at: nat, damaged: set<(nat, nat)>, x: nat, y: nat, w: nat, h: nat,
                          row: nat, col: nat)
    requires ifd.Valid() && w > 0 && h > 0
  {
    && out.width == w && out.height == h && out.channels == ifd.picture.channels
    && w * h * ifd.picture.channels <= USIZE_MAX
    && Filled(out, ifd.picture, x, y, Edge(row, ifd.tileHeight), Edge(row + 1, ifd.tileHeight), Edge(col, ifd.tileWidth))
    && Clear(ifd, at, damaged, TileAt(y, ifd.tileHeight), row, TileAt(x, ifd.tileWidth),
             TileAt(x + w - 1, ifd.tileWidth), col)
  }

  // One more good tile, or the first.
  lemma TileReached(was: Option<Picture>, now: Picture, ifd: Ifd, at: nat, damaged: set<(nat, nat)>, x: nat, y: nat,
                    w: nat, h: nat, row: nat, col: nat)
    requires ifd.Valid() && w > 0 && h > 0 && now.width == w && now.height == h && now.channels == ifd.picture.channels
    requires match was
      case Some(p) => Reached(p, ifd, at, damaged, x, y, w, h, row, col)
      case None => row == TileAt(y, ifd.tileHeight) && col == TileAt(x, ifd.tileWidth)
                   && w * h * ifd.picture.channels <= USIZE_MAX
    requires !Spoilt(ifd, at, damaged, row, col)
    requires Filled(now, ifd.picture, x, y, Edge(row, ifd.tileHeight), Edge(row + 1, ifd.tileHeight),
                    Edge(col + 1, ifd.tileWidth))
    ensures Reached(now, ifd, at, damaged, x, y, w, h, row, col + 1)
  {
  }

  // A tile that fails, or a size that does, is what the whole comes to.
  lemma TileFailed(was: Option<Picture>, ifd: Ifd, at: nat, damaged: set<(nat, nat)>, x: nat, y: nat, w: nat, h: nat,
                   row: nat, col: nat, error: CodecError)
    requires ifd.Valid() && w > 0 && h > 0 && Contains(ifd.picture, x, y, w, h) && Touches(ifd, x, y, w, h, row, col)
    requires match was
      case Some(p) => Reached(p, ifd, at, damaged, x, y, w, h, row, col) && Spoilt(ifd, at, damaged, row, col)
      case None => row == TileAt(y, ifd.tileHeight) && col == TileAt(x, ifd.tileWidth)
                   && (Spoilt(ifd, at, damaged, row, col) || w * h * ifd.picture.channels > USIZE_MAX)
    requires error == if Spoilt(ifd, at, damaged, row, col) then Corrupt(BadTile) else RasterFailed(SizeOverflow)
    ensures RegionOutcome(ifd, at, damaged, x, y, w, h) == Failure(error)
  {
    if was.Some? {
      FirstWasClear(ifd, at, damaged, x, y, w, h, row, col);
    }
  }

  lemma FirstWasClear(ifd: Ifd, at: nat, damaged: set<(nat, nat)>, x: nat, y: nat, w: nat, h: nat, row: nat, col: nat)
    requires ifd.Valid() && w > 0 && h > 0 && Touches(ifd, x, y, w, h, row, col)
    requires Clear(ifd, at, damaged, TileAt(y, ifd.tileHeight), row, TileAt(x, ifd.tileWidth),
                   TileAt(x + w - 1, ifd.tileWidth), col)
    ensures Spoilt(ifd, at, damaged, TileAt(y, ifd.tileHeight), TileAt(x, ifd.tileWidth)) ==>
      row == TileAt(y, ifd.tileHeight) && col == TileAt(x, ifd.tileWidth)
  {
  }

  // The end of a row is the start of the next.
  lemma RowReached(out: Picture, ifd: Ifd, at: nat, damaged: set<(nat, nat)>, x: nat, y: nat, w: nat, h: nat, row: nat)
    requires ifd.Valid() && w > 0 && h > 0
    requires Reached(out, ifd, at, damaged, x, y, w, h, row, TileAt(x + w - 1, ifd.tileWidth) + 1)
    ensures Reached(out, ifd, at, damaged, x, y, w, h, row + 1, TileAt(x, ifd.tileWidth))
  {
    TileBrackets(x, ifd.tileWidth);
    TileBrackets(x + w - 1, ifd.tileWidth);
    EdgeNext(TileAt(x + w - 1, ifd.tileWidth), ifd.tileWidth);
    RowFilled(out, ifd.picture, x, y, Edge(row, ifd.tileHeight), Edge(row + 1, ifd.tileHeight),
              Edge(TileAt(x + w - 1, ifd.tileWidth) + 1, ifd.tileWidth), Edge(row + 2, ifd.tileHeight),
              Edge(TileAt(x, ifd.tileWidth), ifd.tileWidth));
  }

  // Past the last row the region is read.
  lemma AllReached(out: Picture, ifd: Ifd, at: nat, damaged: set<(nat, nat)>, x: nat, y: nat, w: nat, h: nat)
    requires ifd.Valid() && w > 0 && h > 0 && Contains(ifd.picture, x, y, w, h)
    requires Reached(out, ifd, at, damaged, x, y, w, h, TileAt(y + h - 1, ifd.tileHeight) + 1, TileAt(x, ifd.tileWidth))
    ensures RegionOutcome(ifd, at, damaged, x, y, w, h) == Success(out)
  {
    QuotientMonotone(x, x + w - 1, ifd.tileWidth);
    QuotientMonotone(y, y + h - 1, ifd.tileHeight);
    TileBrackets(y + h - 1, ifd.tileHeight);
    EdgeNext(TileAt(y + h - 1, ifd.tileHeight), ifd.tileHeight);
    FilledIsCrop(out, ifd.picture, x, y, w, h, Edge(TileAt(y + h - 1, ifd.tileHeight) + 1, ifd.tileHeight),
                 Edge(TileAt(y + h - 1, ifd.tileHeight) + 2, ifd.tileHeight),
                 Edge(TileAt(x, ifd.tileWidth), ifd.tileWidth));
  }

  // An opened pyramidal TIFF.
  class TiffPyramid {
    const decoder: TiffDecoder
    const levels: seq<Level>
    var currentIfd: nat

    ghost predicate Valid()
      reads this, decoder
    {
      decoder.Valid() && Pyramidal(decoder.ifds, levels)
    }

    function At(): Cursor
      reads this, decoder
    {
      Cursor(decoder.position, currentIfd)
    }

    // The remembered directory is the one the decoder is at.
    predicate InStep()
      reads this, decoder
    {
      At().InStep()
    }

    constructor (decoder: TiffDecoder, levels: seq<Level>, currentIfd: nat)
      ensures this.decoder == decoder && this.levels == levels && this.currentIfd == currentIfd
    {
      this.decoder, this.levels, this.currentIfd := decoder, levels, currentIfd;
    }

    // Survey the directories, then insist they are a pyramid.
    static method Open(decoder: TiffDecoder) returns (r: Result<TiffPyramid, CodecError>)
      requires decoder.Valid() && decoder.position == 0
      modifies decoder
      ensures decoder.Valid()
      ensures match OpenError(decoder.ifds, decoder.broken)
        case Some(e) => r == Failure(e)
        case None =>
          && r.Success? && fresh(r.value) && r.value.decoder == decoder && r.value.Valid() && r.value.InStep()
          && r.value.currentIfd == |decoder.ifds| - 1
    {
      var levels: seq<Level> := [];
      var ifd := 0;
      while true
        invariant decoder.Valid() && decoder.position == ifd == |levels| < |decoder.ifds|
        invariant Surveyed(decoder.ifds, levels)
        invariant SurveyError(decoder.ifds, decoder.broken, 0) == SurveyError(decoder.ifds, decoder.broken, ifd)
        decreases |decoder.ifds| - ifd
      {
        if !decoder.ifds[decoder.position].tiled {
          return Failure(Unsupported(NotTiled));
        }
        levels := levels + [LevelOf(decoder.ifds, decoder.position)];
        if decoder.position + 1 == |decoder.ifds| {
          break;
        }
        var ok := decoder.SeekToImage(decoder.position + 1);
        if !ok {
          return Failure(Corrupt(SeekFailed));
        }
        ifd := ifd + 1;
      }
      SurveyShrinks(decoder.ifds, levels);
      if !NeighboursDescend(levels) {
        return Failure(Unsupported(NotAPyramid));
      }
      var pyramid := new TiffPyramid(decoder, levels, ifd);
      return Success(pyramid);
    }

    // What the request itself allows: the level exists and holds the region.
    ghost function Refusal(levelIfd: nat, x: nat, y: nat, w: nat, h: nat): Option<CodecError> {
      if levelIfd >= |levels| then Some(Corrupt(NoSuchLevel))
      else if x + w > levels[levelIfd].width || y + h > levels[levelIfd].height || w == 0 || h == 0
      then Some(Corrupt(OutsideLevel))
      else None
    }

    // Any rectangle of a level, in that level's coordinates, from exactly the
    // tiles it touches. Read from the directory asked for it is the crop of the
    // whole level, unless a tile is damaged or the size is too large.
    method DecodeRegion(levelIfd: nat, x: nat, y: nat, w: nat, h: nat) returns (r: Result<Raster, CodecError>)
      requires Valid()
      modifies this, decoder
      ensures Valid()
      ensures At() == if Refusal(levelIfd, x, y, w, h).Some? then old(At())
                      else Sought(old(At()), levelIfd, decoder.broken, decoder.stranded)
      ensures r.Success? ==> Sized(r.value, w, h) && fresh(r.value) && fresh(r.value.data)
      ensures Refusal(levelIfd, x, y, w, h).Some? ==> r == Failure(Refusal(levelIfd, x, y, w, h).value)
      ensures Refusal(levelIfd, x, y, w, h).None? ==>
        if !Reachable(old(At()), levelIfd, decoder.broken) then r == Failure(Corrupt(SeekFailed))
        else if old(At()).InStep() || levelIfd != old(currentIfd) then
          Delivers(r, RegionOutcome(decoder.ifds[levelIfd], levelIfd, decoder.damaged, x, y, w, h))
        else r.Success? || r.error == Corrupt(BadTile) || r.error == RasterFailed(SizeOverflow)
    {
      if levelIfd >= |levels| {
        return Failure(Corrupt(NoSuchLevel));
      }
      var level := levels[levelIfd];
      if x + w > level.width || y + h > level.height || w == 0 || h == 0 {
        return Failure(Corrupt(OutsideLevel));
      }
      if Reachable(At(), levelIfd, decoder.broken) {
        ReadsTargetIff(At(), levelIfd, decoder.broken, decoder.stranded);
      }
      if currentIfd != level.ifd {
        var ok := decoder.SeekToImage(level.ifd);
        if !ok {
          return Failure(Corrupt(SeekFailed));
        }
        currentIfd := level.ifd;
      }
      r := Assemble(level, x, y, w, h);
    }

    // A full-resolution crop, from the level that has just enough detail. A crop
    // of the image always maps to a non-empty rectangle inside that level, so
    // neither of the refusals of DecodeRegion can come back.
    method DecodeCrop(crop: CropRect, needed: real) returns (r: Result<Raster, CodecError>)
      requires Valid() && crop.Inside(levels[0].width, levels[0].height)
      modifies this, decoder
      ensures Valid()
      ensures At() == Sought(old(At()), LevelForScale(levels, needed).ifd, decoder.broken, decoder.stranded)
      ensures r.Success? ==> r.value.Valid() && fresh(r.value) && fresh(r.value.data)
      ensures r.Failure? ==> r.error != Corrupt(NoSuchLevel) && r.error != Corrupt(OutsideLevel)
      ensures old(InStep()) || LevelForScale(levels, needed).ifd != old(currentIfd) ==>
        Delivers(r, CropOutcome(decoder.ifds, decoder.broken, decoder.damaged, levels, old(currentIfd), crop, needed))
    {
      ChosenStands(decoder.ifds, levels, crop, needed);
      var level := LevelForScale(levels, needed);
      var g := LevelRegion(level, crop);
      r := DecodeRegion(level.ifd, g.x, g.y, g.w, g.h);
    }

    // The tiles of one level, row by row, each blitted where it overlaps.
    method Assemble(level: Level, x: nat, y: nat, w: nat, h: nat) returns (r: Result<Raster, CodecError>)
      requires Valid() && level.ifd < |levels| && level == levels[level.ifd]
      requires 0 < w && 0 < h && x + w <= level.width && y + h <= level.height
      ensures r.Success? ==> Sized(r.value, w, h) && fresh(r.value) && fresh(r.value.data)
      ensures r.Failure? ==> r.error == Corrupt(BadTile) || r.error == RasterFailed(SizeOverflow)
      ensures decoder.position == level.ifd ==>
        Delivers(r, RegionOutcome(decoder.ifds[level.ifd], level.ifd, decoder.damaged, x, y, w, h))
    {
      LevelStands(decoder.ifds, levels, level.ifd);
      ghost var ifd, matched := decoder.ifds[level.ifd], decoder.position == level.ifd;
      ghost var damaged, channels := decoder.damaged, decoder.ifds[decoder.position].picture.channels;
      var firstRow, lastRow := TileAt(y, level.tileHeight), TileAt(y + h - 1, level.tileHeight);
      QuotientMonotone(y, y + h - 1, level.tileHeight);
      var out: Raster? := null;
      for row := firstRow to lastRow + 1
        invariant out == null <==> row == firstRow
        invariant out != null ==> Drawn(out, w, h, channels) && fresh(out) && fresh(out.data)
        invariant out != null && matched ==>
          Reached(out.pic, ifd, level.ifd, damaged, x, y, w, h, row, TileAt(x, level.tileWidth))
      {
        var drawn := DrawRow(level, row, x, y, w, h, out);
        if drawn.Failure? {
          return drawn;
        }
        out := drawn.value;
      }
      if matched {
        AllReached(out.pic, ifd, level.ifd, damaged, x, y, w, h);
      }
      return Success(out);
    }

    // The tiles of one row.
    method DrawRow(level: Level, row: nat, x: nat, y: nat, w: nat, h: nat, before: Raster?)
      returns (r: Result<Raster, CodecError>)
      requires Valid() && level.ifd < |levels| && level == levels[level.ifd]
      requires 0 < w && 0 < h && x + w <= level.width && y + h <= level.height
      requires 0 < level.tileWidth && 0 < level.tileHeight
      requires TileAt(y, level.tileHeight) <= row <= TileAt(y + h - 1, level.tileHeight)
      requires decoder.ifds[level.ifd].Valid() && level == LevelOf(decoder.ifds, level.ifd)
      requires before == null ==> row == TileAt(y, level.tileHeight)
      requires before != null ==> Drawn(before, w, h, decoder.ifds[decoder.position].picture.channels)
      requires before != null && decoder.position == level.ifd ==>
        Reached(before.pic, decoder.ifds[level.ifd], level.ifd, decoder.damaged, x, y, w, h, row,
                TileAt(x, level.tileWidth))
      modifies if before == null then {} else {before, before.data}
      ensures r.Failure? ==> r.error == Corrupt(BadTile) || r.error == RasterFailed(SizeOverflow)
      ensures r.Success? ==>
        && Drawn(r.value, w, h, decoder.ifds[decoder.position].picture.channels)
        && (if before == null then fresh(r.value) && fresh(r.value.data) else r.value == before)
      ensures decoder.position == level.ifd ==>
        if r.Success? then
          Reached(r.value.pic, decoder.ifds[level.ifd], level.ifd, decoder.damaged, x, y, w, h, row + 1,
                  TileAt(x, level.tileWidth))
        else RegionOutcome(decoder.ifds[level.ifd], level.ifd, decoder.damaged, x, y, w, h) == Failure(r.error)
    {
      ghost var ifd, damaged := decoder.ifds[level.ifd], decoder.damaged;
      var firstCol, lastCol := TileAt(x, level.tileWidth), TileAt(x + w - 1, level.tileWidth);
      QuotientMonotone(x, x + w - 1, level.tileWidth);
      var out := before;
      for col := firstCol to lastCol + 1
        invariant out == null <==> before == null && col == firstCol
        invariant out != null ==>
          && Drawn(out, w, h, decoder.ifds[decoder.position].picture.channels)
          && (if before == null then fresh(out) && fresh(out.data) else out == before)
        invariant out != null && decoder.position == level.ifd ==>
          Reached(out.pic, ifd, level.ifd, damaged, x, y, w, h, row, col)
      {
        ghost var was: Option<Picture> := if out == null then None else Some(out.pic);
        var drawn := DrawTile(level, row, col, x, y, w, h, out);
        if drawn.Failure? {
          if decoder.position == level.ifd {
            TileFailed(was, ifd, level.ifd, damaged, x, y, w, h, row, col, drawn.error);
          }
          return drawn;
        }
        out := drawn.value;
        if decoder.position == level.ifd {
          TileReached(was, out.pic, ifd, level.ifd, damaged, x, y, w, h, row, col);
        }
      }
      if decoder.position == level.ifd {
        RowReached(out.pic, ifd, level.ifd, damaged, x, y, w, h, row);
      }
      return Success(out);
    }

    // One tile: read it, make the output from the first one read, blit what
    // overlaps.
    method DrawTile(level: Level, row: nat, col: nat, x: nat, y: nat, w: nat, h: nat, out: Raster?)
      returns (r: Result<Raster, CodecError>)
      requires Valid() && level.ifd < |levels| && level == levels[level.ifd]
      requires 0 < w && 0 < h && x + w <= level.width && y + h <= level.height
      requires 0 < level.tileWidth && 0 < level.tileHeight
      requires TileAt(x, level.tileWidth) <= col <= TileAt(x + w - 1, level.tileWidth)
      requires TileAt(y, level.tileHeight) <= row <= TileAt(y + h - 1, level.tileHeight)
      requires out == null ==> row == TileAt(y, level.tileHeight) && col == TileAt(x, level.tileWidth)
      requires out != null ==> Drawn(out, w, h, decoder.ifds[decoder.position].picture.channels)
      requires out != null && decoder.position == level.ifd ==>
        Filled(out.pic, decoder.ifds[level.ifd].picture, x, y, Edge(row, level.tileHeight),
               Edge(row + 1, level.tileHeight), Edge(col, level.tileWidth))
      modifies if out == null then {} else {out, out.data}
      ensures r.Failure? ==> r.error == Corrupt(BadTile) || r.error == RasterFailed(SizeOverflow)
      ensures r.Success? ==>
        && Drawn(r.value, w, h, decoder.ifds[decoder.position].picture.channels)
        && (if out == null then fresh(r.value) && fresh(r.value.data) else r.value == out)
      ensures decoder.position == level.ifd ==>
        && (r == Failure(Corrupt(BadTile)) <==> Spoilt(decoder.ifds[level.ifd], level.ifd, decoder.damaged, row, col))
        && (r == Failure(RasterFailed(SizeOverflow)) <==>
              !Spoilt(decoder.ifds[level.ifd], level.ifd, decoder.damaged, row, col)
              && out == null && w * h * decoder.ifds[level.ifd].picture.channels > USIZE_MAX)
      ensures r.Success? && decoder.position == level.ifd ==>
        Filled(r.value.pic, decoder.ifds[level.ifd].picture, x, y, Edge(row, level.tileHeight),
               Edge(row + 1, level.tileHeight), Edge(col + 1, level.tileWidth))
    {
      LevelStands(decoder.ifds, levels, level.ifd);
      ghost var ifd := decoder.ifds[level.ifd];
      var read := ReadTile(level, row, col, x, y, w, h);
      if read.Failure? {
        return Failure(read.error);
      }
      var buffer := OutputFor(read.value, w, h, out);
      if buffer.Failure? {
        return buffer;
      }
      if out == null {
        FirstTile(buffer.value.pic, ifd.picture, level, x, y, w, h);
      }
      PlaceTile(buffer.value, read.value, x, y, Edge(col, level.tileWidth), Edge(row, level.tileHeight), ifd, row, col,
                decoder.position == level.ifd);
      return buffer;
    }

    // decode_tile, by the level's own count of tiles across.
    method ReadTile(level: Level, row: nat, col: nat, ghost x: nat, ghost y: nat, ghost w: nat, ghost h: nat)
      returns (r: Result<Raster, CodecError>)
      requires Valid() && level.ifd < |levels| && level == levels[level.ifd] && level == LevelOf(decoder.ifds, level.ifd)
      requires decoder.ifds[level.ifd].Valid() && w > 0 && h > 0
      requires Contains(decoder.ifds[level.ifd].picture, x, y, w, h)
      requires Touches(decoder.ifds[level.ifd], x, y, w, h, row, col)
      ensures r.Failure? ==> r.error == Corrupt(BadTile)
      ensures r.Success? ==>
        && r.value.Valid() && fresh(r.value) && fresh(r.value.data)
        && r.value.channels == decoder.ifds[decoder.position].picture.channels
      ensures decoder.position == level.ifd ==>
        && (r.Failure? <==> Spoilt(decoder.ifds[level.ifd], level.ifd, decoder.damaged, row, col))
        && (r.Success? ==> IsTile(r.value.pic, decoder.ifds[level.ifd], row, col))
    {
      TouchedTileStands(decoder.ifds[level.ifd], x, y, w, h, row, col);
      r := decoder.ReadChunk(Edge(row, DivCeil(level.width, level.tileWidth)) + col);
    }
  }

  // The output so far, or a blank one like the first tile.
  method OutputFor(tile: Raster, w: nat, h: nat, out: Raster?) returns (r: Result<Raster, CodecError>)
    requires tile.Valid()
    ensures out != null ==> r == Success(out)
    ensures out == null ==>
      && (r.Failure? <==> w * h * tile.channels > USIZE_MAX)
      && (r.Failure? ==> r.error == RasterFailed(SizeOverflow))
      && (r.Success? ==> Drawn(r.value, w, h, tile.channels) && fresh(r.value) && fresh(r.value.data))
  {
    if out != null {
      return Success(out);
    }
    var blank := tile.ZeroedLike(w, h);
    return if blank.Success? then Success(blank.value) else Failure(RasterFailed(blank.error));
  }

  // The picture of one tile.
  ghost predicate IsTile(tile: Picture, ifd: Ifd, row: nat, col: nat) {
    var e := TileExtent(ifd.picture.width, ifd.picture.height, ifd.tileWidth, ifd.tileHeight, row, col);
    IsCrop(tile, ifd.picture, e.left, e.top, e.width, e.height)
  }

  // What blitting the overlap of a tile at `e` leaves.
  ghost predicate Overlaid(now: Picture, was: Picture, tile: Picture, x: nat, y: nat, e: Extent) {
    var o := Intersect(x, y, was.width, was.height, e);
    if o.left < o.right && o.top < o.bottom then
      IsPaste(now, was, tile, o.left - e.left, o.top - e.top, o.right - o.left, o.bottom - o.top, o.left - x, o.top - y)
    else now == was
  }

  // A tile put in its place. Where it is the tile of the region being read
  // (`matched`), the region is filled up to its far edge.
  method PlaceTile(out: Raster, tile: Raster, x: nat, y: nat, left: nat, top: nat, ghost ifd: Ifd, ghost row: nat,
                   ghost col: nat, ghost matched: bool)
    requires out.Valid() && tile.Valid() && tile.data != out.data && tile != out && tile.channels == out.channels
    requires ifd.Valid() && out.width > 0 && out.height > 0
    requires left == Edge(col, ifd.tileWidth) && top == Edge(row, ifd.tileHeight)
    requires matched ==>
      && Contains(ifd.picture, x, y, out.width, out.height) && Touches(ifd, x, y, out.width, out.height, row, col)
      && IsTile(tile.pic, ifd, row, col)
      && Filled(out.pic, ifd.picture, x, y, Edge(row, ifd.tileHeight), Edge(row + 1, ifd.tileHeight),
                Edge(col, ifd.tileWidth))
    modifies out, out.data
    ensures out.Valid()
    ensures matched ==>
      Filled(out.pic, ifd.picture, x, y, Edge(row, ifd.tileHeight), Edge(row + 1, ifd.tileHeight),
             Edge(col + 1, ifd.tileWidth))
  {
    ghost var before := out.pic;
    BlitTile(out, tile, x, y, left, top);
    if matched {
      assert Extent(left, top, tile.width, tile.height)
          == TileExtent(ifd.picture.width, ifd.picture.height, ifd.tileWidth, ifd.tileHeight, row, col);
      TileFills(before, out.pic, ifd, tile.pic, x, y, row, col);
    }
  }

  ghost predicate Delivers(r: Result<Raster, CodecError>, outcome: Result<Picture, CodecError>)
    reads if r.Success? then {r.value, r.value.data} else {}
  {
    match outcome
    case Failure(e) => r == Failure(e)
    case Success(p) => r.Success? && r.value.Valid() && r.value.pic == p
  }

  // An output of the region's size, with the channels of what is being read.
  ghost predicate Drawn(out: Raster, w: nat, h: nat, channels: nat)
    reads out, out.data
  {
    Sized(out, w, h) && out.channels == channels
  }

  ghost predicate Sized(out: Raster, w: nat, h: nat)
    reads out, out.data
  {
    out.Valid() && out.width == w && out.height == h
  }

  // What of a tile at (left, top) lies in the region at (x, y), blitted into
  // place; nothing where they do not overlap.
  method BlitTile(out: Raster, tile: Raster, x: nat, y: nat, left: nat, top: nat)
    requires out.Valid() && tile.Valid() && tile.data != out.data && tile != out && tile.channels == out.channels
    modifies out, out.data
    ensures out.Valid()
    ensures Overlaid(out.pic, old(out.pic), old(tile.pic), x, y, Extent(left, top, tile.width, tile.height))
  {
    var o := Intersect(x, y, out.width, out.height, Extent(left, top, tile.width, tile.height));
    if o.right <= o.left || o.bottom <= o.top {
      return;
    }
    var rect := CopyRect(o.left - left, o.top - top, o.right - o.left, o.bottom - o.top);
    var blit := out.Blit(tile, rect, o.left - x, o.top - y);
    assert blit.Success?;
  }

  // The part of `out` above line `done`, and left of `across` above line
  // `partly`, already shows the picture from (x, y) on.
  ghost predicate Filled(out: Picture, picture: Picture, x: nat, y: nat, done: int, partly: int, across: int) {
    && Contains(picture, x, y, out.width, out.height)
    && forall v, u {:trigger out.rows[v][u]} :: 0 <= v < out.height && 0 <= u < out.width ==>
      y + v < done || (y + v < partly && x + u < across) ==> out.rows[v][u] == picture.rows[y + v][x + u]
  }

  predicate Shrinking(ifds: seq<Ifd>) {
    forall k {:trigger ifds[k]} :: 0 < k < |ifds| ==>
      ifds[k].picture.width < ifds[k - 1].picture.width && ifds[k].picture.height < ifds[k - 1].picture.height
  }

  lemma SurveyShrinks(ifds: seq<Ifd>, levels: seq<Level>)
    requires Surveyed(ifds, levels) && |levels| == |ifds|
    ensures NeighboursDescend(levels) <==> Shrinking(ifds)
  {
    forall k | 0 <= k < |ifds|
      ensures levels[k].width == ifds[k].picture.width && levels[k].height == ifds[k].picture.height
    {
      var level := levels[k];
      assert level == LevelOf(ifds, k);
    }
  }

  // ----- assembling a region -----

  // The part of a region that lies in one tile.
  datatype Overlap = Overlap(left: nat, top: nat, right: nat, bottom: nat)

  function Intersect(x: nat, y: nat, w: nat, h: nat, e: Extent): Overlap {
    Overlap(Max(x, e.left), Max(y, e.top), Min(x + w, e.left + e.width), Min(y + h, e.top + e.height))
  }

  // A tile whose row and column are among those the region touches has an
  // extent that overlaps the region, so assembling never skips a tile.
  lemma TouchedTileOverlaps(fullW: nat, fullH: nat, tw: nat, th: nat, x: nat, y: nat, w: nat, h: nat, row: nat, col: nat)
    requires tw > 0 && th > 0 && w > 0 && h > 0 && x + w <= fullW && y + h <= fullH
    requires TileAt(x, tw) <= col <= TileAt(x + w - 1, tw) && TileAt(y, th) <= row <= TileAt(y + h - 1, th)
    ensures var e := TileExtent(fullW, fullH, tw, th, row, col);
      && e.width > 0 && e.height > 0 && e.left + e.width <= fullW && e.top + e.height <= fullH
      && var o := Intersect(x, y, w, h, e);
      && o.left < o.right && o.top < o.bottom
      && e.left <= o.left && o.right <= e.left + e.width && x <= o.left && o.right <= x + w
      && e.top <= o.top && o.bottom <= e.top + e.height && y <= o.top && o.bottom <= y + h
    ensures col < DivCeil(fullW, tw)
  {
    AxisOverlaps(fullW, tw, x, w, col);
    AxisOverlaps(fullH, th, y, h, row);
  }

  lemma AxisOverlaps(full: nat, tile: nat, x: nat, w: nat, k: nat)
    requires tile > 0 && w > 0 && x + w <= full && TileAt(x, tile) <= k <= TileAt(x + w - 1, tile)
    ensures Edge(k, tile) < x + w && x < Edge(k, tile) + tile && Edge(k, tile) < full && k < DivCeil(full, tile)
  {
    var first, last := TileAt(x, tile), TileAt(x + w - 1, tile);
    TileBrackets(x, tile);
    TileBrackets(x + w - 1, tile);
    SlotApart(first, k, tile);
    SlotApart(k, last, tile);
    DivCeilIff(full, tile, DivCeil(full, tile));
    CancelLess(k, DivCeil(full, tile), tile);
  }

  // So it exists, under the number it is asked for by.
  lemma TouchedTileStands(ifd: Ifd, x: nat, y: nat, w: nat, h: nat, row: nat, col: nat)
    requires ifd.Valid() && w > 0 && h > 0 && Contains(ifd.picture, x, y, w, h) && Touches(ifd, x, y, w, h, row, col)
    ensures ifd.HasTile(ifd.TileNumber(row, col)) && ifd.TilesAcross() > 0
    ensures TileOf(ifd, ifd.TileNumber(row, col))
         == TileExtent(ifd.picture.width, ifd.picture.height, ifd.tileWidth, ifd.tileHeight, row, col)
  {
    AxisOverlaps(ifd.picture.width, ifd.tileWidth, x, w, col);
    AxisOverlaps(ifd.picture.height, ifd.tileHeight, y, h, row);
    TileNumbered(ifd, row, col);
  }

  // Every pixel of the region is in exactly one of the tiles the region touches.
  lemma ExactlyOneTile(fullW: nat, fullH: nat, tw: nat, th: nat, x: nat, y: nat, w: nat, h: nat,
                       px: nat, py: nat, row: nat, col: nat)
    requires tw > 0 && th > 0 && x + w <= fullW && y + h <= fullH && x <= px < x + w && y <= py < y + h
    ensures TileExtent(fullW, fullH, tw, th, row, col).Holds(px, py) <==> row == TileAt(py, th) && col == TileAt(px, tw)
    ensures TileAt(x, tw) <= TileAt(px, tw) <= TileAt(x + w - 1, tw)
    ensures TileAt(y, th) <= TileAt(py, th) <= TileAt(y + h - 1, th)
  {
    TileOfPixel(px, fullW, tw, col);
    TileOfPixel(py, fullH, th, row);
    QuotientMonotone(x, px, tw);
    QuotientMonotone(px, x + w - 1, tw);
    QuotientMonotone(y, py, th);
    QuotientMonotone(py, y + h - 1, th);
  }

  // Nothing above or left of the region's first tile is asked for.
  lemma NothingYet(out: Picture, picture: Picture, x: nat, y: nat, done: int, partly: int, across: int)
    requires Contains(picture, x, y, out.width, out.height) && done <= y && across <= x
    ensures Filled(out, picture, x, y, done, partly, across)
  {
  }

  lemma FirstTile(out: Picture, picture: Picture, level: Level, x: nat, y: nat, w: nat, h: nat)
    requires out.width == w && out.height == h && level.tileWidth > 0 && level.tileHeight > 0
    requires Contains(picture, x, y, w, h)
    ensures var row, col := TileAt(y, level.tileHeight), TileAt(x, level.tileWidth);
      Filled(out, picture, x, y, Edge(row, level.tileHeight), Edge(row + 1, level.tileHeight), Edge(col, level.tileWidth))
  {
    TileBrackets(x, level.tileWidth);
    TileBrackets(y, level.tileHeight);
    NothingYet(out, picture, x, y, Edge(TileAt(y, level.tileHeight), level.tileHeight),
               Edge(TileAt(y, level.tileHeight) + 1, level.tileHeight), Edge(TileAt(x, level.tileWidth), level.tileWidth));
  }

  // A finished row of tiles.
  lemma RowFilled(out: Picture, picture: Picture, x: nat, y: nat, done: int, partly: int, across: int, next: int,
                  first: int)
    requires Filled(out, picture, x, y, done, partly, across) && x + out.width <= across && first <= x
    ensures Filled(out, picture, x, y, partly, next, first)
  {
  }

  lemma FilledIsCrop(out: Picture, picture: Picture, x: nat, y: nat, w: nat, h: nat, done: int, partly: int, across: int)
    requires Filled(out, picture, x, y, done, partly, across) && y + h <= done
    requires out.width == w && out.height == h && out.channels == picture.channels
    ensures IsCrop(out, picture, x, y, w, h)
  {
    SamePicture(out, Crop(picture, x, y, w, h));
  }

  // Blitting the overlap of one more tile fills the region up to that tile.
  lemma TilePlaced(before: Picture, after: Picture, picture: Picture, x: nat, y: nat, e: Extent, tile: Picture,
                   o: Overlap, next: nat, edge: nat)
    requires e.left + e.width == Min(edge, picture.width) && e.top + e.height == Min(next, picture.height)
    requires IsCrop(tile, picture, e.left, e.top, e.width, e.height)
    requires o == Intersect(x, y, before.width, before.height, e)
    requires e.left <= o.left < o.right && e.top <= o.top < o.bottom && x <= o.left && y <= o.top
    requires Overlaid(after, before, tile, x, y, e)
    requires Filled(before, picture, x, y, e.top, next, e.left)
    ensures Filled(after, picture, x, y, e.top, next, edge)
  {
    forall v, u | 0 <= v < after.height && 0 <= u < after.width
                  && (y + v < e.top || (y + v < next && x + u < edge))
      ensures after.rows[v][u] == picture.rows[y + v][x + u]
    {
      if o.left <= x + u < o.right && o.top <= y + v < o.bottom {
        TilePixel(picture, tile, e, y + v - e.top, x + u - e.left);
        PixelFromTile(before, after, tile, x, y, e, o, v, u, picture.rows[y + v][x + u]);
      } else {
        PixelKept(before, after, picture, x, y, e, tile, o, next, edge, v, u);
      }
    }
  }

  lemma PixelFromTile(before: Picture, after: Picture, tile: Picture, x: nat, y: nat, e: Extent, o: Overlap, v: nat,
                      u: nat, pixel: Pixel)
    requires o == Intersect(x, y, before.width, before.height, e) && v < after.height && u < after.width
    requires e.left <= o.left <= x + u < o.right && e.top <= o.top <= y + v < o.bottom && x <= o.left && y <= o.top
    requires tile.width == e.width && tile.height == e.height && Overlaid(after, before, tile, x, y, e)
    requires tile.rows[y + v - e.top][x + u - e.left] == pixel
    ensures after.rows[v][u] == pixel
  {
    PixelPlaced(before, after, tile, x, y, e, o, v, u);
  }

  lemma PixelKept(before: Picture, after: Picture, picture: Picture, x: nat, y: nat, e: Extent, tile: Picture,
                  o: Overlap, next: nat, edge: nat, v: nat, u: nat)
    requires o == Intersect(x, y, before.width, before.height, e) && v < after.height && u < after.width
    requires e.left <= o.left < o.right && e.top <= o.top < o.bottom && x <= o.left && y <= o.top
    requires !(o.left <= x + u < o.right && o.top <= y + v < o.bottom)
    requires y + v < e.top || (y + v < next && x + u < edge)
    requires e.left + e.width == Min(edge, picture.width) && e.top + e.height == Min(next, picture.height)
    requires tile.width == e.width && tile.height == e.height && Overlaid(after, before, tile, x, y, e)
    requires Filled(before, picture, x, y, e.top, next, e.left)
    ensures y + v < picture.height && x + u < picture.width && after.rows[v][u] == picture.rows[y + v][x + u]
  {
    PixelPlaced(before, after, tile, x, y, e, o, v, u);
    OutsideOverlap(x, y, before.width, before.height, picture.width, picture.height, e, next, edge, v, u);
  }

  // A place up to the tile's far edge is in the overlap, or was reached before.
  lemma OutsideOverlap(x: nat, y: nat, w: nat, h: nat, fullW: nat, fullH: nat, e: Extent, next: nat, edge: nat,
                       v: nat, u: nat)
    requires v < h && u < w && x + w <= fullW && y + h <= fullH && (y + v < e.top || (y + v < next && x + u < edge))
    requires e.left + e.width == Min(edge, fullW) && e.top + e.height == Min(next, fullH)
    ensures var o := Intersect(x, y, w, h, e);
      (o.left <= x + u < o.right && o.top <= y + v < o.bottom) || y + v < e.top || (y + v < next && x + u < e.left)
  {
  }

  lemma PixelPlaced(before: Picture, after: Picture, tile: Picture, x: nat, y: nat, e: Extent, o: Overlap, v: nat, u: nat)
    requires o == Intersect(x, y, before.width, before.height, e) && v < after.height && u < after.width
    requires e.left <= o.left < o.right && e.top <= o.top < o.bottom && x <= o.left && y <= o.top
    requires tile.width == e.width && tile.height == e.height && Overlaid(after, before, tile, x, y, e)
    ensures after.width == before.width && after.height == before.height
    ensures after.rows[v][u] == if o.left <= x + u < o.right && o.top <= y + v < o.bottom
                                then tile.rows[y + v - e.top][x + u - e.left] else before.rows[v][u]
  {
    var pasted := after.rows[v][u];
  }

  lemma TileGeometry(ifd: Ifd, x: nat, y: nat, w: nat, h: nat, row: nat, col: nat)
    requires ifd.Valid() && w > 0 && h > 0 && Contains(ifd.picture, x, y, w, h) && Touches(ifd, x, y, w, h, row, col)
    ensures var e := TileExtent(ifd.picture.width, ifd.picture.height, ifd.tileWidth, ifd.tileHeight, row, col);
      var o := Intersect(x, y, w, h, e);
      && e.left == Edge(col, ifd.tileWidth) && e.left + e.width == Min(Edge(col + 1, ifd.tileWidth), ifd.picture.width)
      && e.top == Edge(row, ifd.tileHeight) && e.top + e.height == Min(Edge(row + 1, ifd.tileHeight), ifd.picture.height)
      && e.left <= o.left < o.right && e.top <= o.top < o.bottom && x <= o.left && y <= o.top
  {
    TouchedTileOverlaps(ifd.picture.width, ifd.picture.height, ifd.tileWidth, ifd.tileHeight, x, y, w, h, row, col);
    EdgeNext(row, ifd.tileHeight);
    EdgeNext(col, ifd.tileWidth);
  }

  // Blitting a touched tile: the overlap is never empty, so the skip is never
  // taken, and the region is filled up to the tile's far edge.
  lemma TileFills(before: Picture, after: Picture, ifd: Ifd, tile: Picture, x: nat, y: nat, row: nat, col: nat)
    requires ifd.Valid() && before.width > 0 && before.height > 0
    requires Contains(ifd.picture, x, y, before.width, before.height)
    requires Touches(ifd, x, y, before.width, before.height, row, col)
    requires IsTile(tile, ifd, row, col)
    requires Overlaid(after, before, tile, x, y,
                      TileExtent(ifd.picture.width, ifd.picture.height, ifd.tileWidth, ifd.tileHeight, row, col))
    requires Filled(before, ifd.picture, x, y, Edge(row, ifd.tileHeight), Edge(row + 1, ifd.tileHeight),
                    Edge(col, ifd.tileWidth))
    ensures Filled(after, ifd.picture, x, y, Edge(row, ifd.tileHeight), Edge(row + 1, ifd.tileHeight),
                   Edge(col + 1, ifd.tileWidth))
  {
    var e := TileExtent(ifd.picture.width, ifd.picture.height, ifd.tileWidth, ifd.tileHeight, row, col);
    TileGeometry(ifd, x, y, before.width, before.height, row, col);
    TilePlaced(before, after, ifd.picture, x, y, e, tile, Intersect(x, y, before.width, before.height, e),
               Edge(row + 1, ifd.tileHeight), Edge(col + 1, ifd.tileWidth));
  }

  lemma TilePixel(picture: Picture, tile: Picture, e: Extent, v: nat, u: nat)
    requires IsCrop(tile, picture, e.left, e.top, e.width, e.height)
    requires v < e.height && u < e.width
    ensures tile.rows[v][u] == picture.rows[e.top + v][e.left + u]
  {
  }

  // ----- the whole-image masters -----

  // A master decoded whole at open time: a crop is one blit.
  class SimpleMaster {
    const raster: Raster

    constructor (raster: Raster)
      ensures this.raster == raster
    {
      this.raster := raster;
    }

    method DecodeCrop(crop: CropRect) returns (r: Result<Raster, CodecError>)
      requires raster.Valid() && crop.Inside(raster.width, raster.height)
      ensures if crop.width * crop.height * raster.channels > USIZE_MAX then r == Failure(RasterFailed(SizeOverflow))
        else r.Success? && r.value.Valid() && fresh(r.value) && fresh(r.value.data)
             && IsCrop(r.value.pic, raster.pic, crop.x, crop.y, crop.width, crop.height)
    {
      var blank := raster.ZeroedLike(crop.width, crop.height);
      if blank.Failure? {
        return Failure(RasterFailed(blank.error));
      }
      var out := blank.value;
      ghost var before := out.pic;
      var blit := out.Blit(raster, CopyRect(crop.x, crop.y, crop.width, crop.height), 0, 0);
      assert blit.Success?;
      PasteWhole(out.pic, before, raster.pic, crop.x, crop.y, crop.width, crop.height);
      return Success(out);
    }
  }

  // Where no smaller level has the detail, the tiled decode is asked for the crop
  // itself: both masters then deliver the same rectangle of the same picture.
  lemma FullScaleIsPlainCrop(levels: seq<Level>, crop: CropRect, needed: real)
    requires Ladder(levels) && FullSizeServes(levels, needed)
    requires crop.Inside(levels[0].width, levels[0].height)
    ensures LevelForScale(levels, needed) == levels[0] && levels[0].scaleFactor == 1
    ensures LevelRegion(levels[0], crop) == Region(crop.x, crop.y, crop.width, crop.height)
  {
    FullSizeIff(levels, needed);
    ScaleFactorsRise(levels, 0, 0);
    RegionAtFullScale(levels[0], crop);
  }

  // Rasters that show one crop are byte for byte the same buffer.
  lemma SameCropSameBytes(a: Raster, b: Raster, picture: Picture, x: nat, y: nat, w: nat, h: nat)
    requires a.Valid() && b.Valid() && IsCrop(a.pic, picture, x, y, w, h) && IsCrop(b.pic, picture, x, y, w, h)
    ensures a.data[..] == b.data[..]
  {
    a.PicIsUnpacked();
    b.PicIsUnpacked();
    UnpackingIsInjective(a.data[..], b.data[..], w, h, picture.channels);
  }

  // So where the full-size level is chosen, the tiled master's crop `a` is the
  // plain master's crop `b` of the same picture, byte for byte.
  lemma TiledEqualsPlain(a: Raster, b: Raster, picture: Picture, levels: seq<Level>, crop: CropRect, needed: real)
    requires a.Valid() && b.Valid() && Ladder(levels) && FullSizeServes(levels, needed)
    requires crop.Inside(levels[0].width, levels[0].height) && levels[0].scaleFactor > 0
    requires var g := LevelRegion(levels[0], crop); IsCrop(a.pic, picture, g.x, g.y, g.w, g.h)
    requires IsCrop(b.pic, picture, crop.x, crop.y, crop.width, crop.height)
    ensures a.data[..] == b.data[..]
  {
    FullScaleIsPlainCrop(levels, crop, needed);
    SameCropSameBytes(a, b, picture, crop.x, crop.y, crop.width, crop.height);
  }

  // The two masters on one picture, asked for the same crop at full size: the
  // same bytes or the same error, unless the tiled file itself is broken.
  method DecodeBoth(tiled: TiffPyramid, plain: SimpleMaster, crop: CropRect, needed: real)
    returns (a: Result<Raster, CodecError>, b: Result<Raster, CodecError>)
    requires tiled.Valid() && tiled.InStep() && plain.raster.Valid()
    requires plain.raster.pic == tiled.decoder.ifds[0].picture
    requires FullSizeServes(tiled.levels, needed)
    requires crop.Inside(tiled.levels[0].width, tiled.levels[0].height)
    modifies tiled, tiled.decoder
    ensures match a
      case Failure(e) => e == Corrupt(SeekFailed) || e == Corrupt(BadTile) || b == Failure(e)
      case Success(x) => b.Success? && x.data[..] == b.value.data[..]
                         && (x.width, x.height, x.channels) == (b.value.width, b.value.height, b.value.channels)
  {
    LevelsAreLadder(tiled.decoder.ifds, tiled.levels);
    LevelStands(tiled.decoder.ifds, tiled.levels, 0);
    FullScaleIsPlainCrop(tiled.levels, crop, needed);
    ghost var picture := plain.raster.pic;
    a := tiled.DecodeCrop(crop, needed);
    b := plain.DecodeCrop(crop);
    if a.Success? && b.Success? {
      TiledEqualsPlain(a.value, b.value, picture, tiled.levels, crop, needed);
    }
  }
}
