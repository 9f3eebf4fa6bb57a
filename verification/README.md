# Verification of the image server's serving engine

A IIIF image request travels one chain here: request text, typed request, plan,
decoded pixels, transformed pixels, canonical link. This project models each
link of that chain and the bounded decode pool around it, and proves what each
must guarantee. Every link is tied to a simple reference: a tiled decode to a
crop of the whole level, a packed-buffer operation to a picture, a printer to
its parser, the pool to its permit accounts.

`dafny verify dfyconfig.toml` checks everything. Nothing here was executed.

## Main results

- From the path to the pixels: what the bytes of a reply show, pixel by pixel
  (`Serving.ServedPixels`, over `Pipeline.EveryPixel`, `Pipeline.TiledIsWhole` and
  `Pyramids.TiffPyramid.Assemble`).
- Which requests there are: the parsers of both versions read exactly the texts
  that spell a legal request, and refuse any other for the first reason in order
  (`Spelling.ParseRequestIff`, `Spelling.RefusedFor`, `V2.ParseRequestV2Iff`,
  `V2.RefusedForV2`); identifiers likewise (`Ident.AcceptedIff`, `Utf8.ValidUtf8Iff`).
- What a request is given: exact sides and exact refusals for every kind of size
  (`SizeMeaning.ServedAsAsked`, `SizeMeaning.MaxServedAsAsked`, `MaxSize.MaxRefusedIff`).
- The canonical path is a fixed point, and its link answers with the same reply
  (`Canonical.CanonicalFixedPoint`, `Serving.LinkAnswersAlike`); where version 2.1
  fails that, the exact condition (`V2.CanonicalV2Iff`, `Tags.OneTextOutputs`).
- Revalidation: a held tag decides and nothing else does, old versions of a file
  never pass, and when a tag stands for the same bytes (`Serving.HeldTagsDecide`,
  `Serving.ReplacedFileIsServedAnew`, `Serving.RevalidationSound`).
- Pyramids: which level and rectangle are read, in whole numbers, and exactly when
  that is enough detail (`Pyramids.CropReads`, `Levels.ChoiceIff`,
  `Levels.EnoughDetailIff`); tiled and plain decodes agree byte for byte
  (`Pyramids.DecodeBoth`).
- The decode pool: permits are conserved over every run, waiters are served in
  order, and the queue can exceed its depth exactly when stated
  (`Pools.RunSafe`, `Pools.FirstComeFirstServed`, `Pools.QueueOverDepthIff`).
- The JPEG 2000 covering is the smallest and composes (`Jp2Masters.CoveringIsSmallest`,
  `Jp2Masters.CoveringComposes`); the PDF reads back (`Pdfs.CrossReferencesAreExact`,
  `Pdfs.PageReads`); the metrics page is the history in numbers
  (`MetricsPage.FiguresInNumbers`).

## How it is laid out

- `Text`, `Decimal`, `Grammar`, `Spelling`: splitting and joining, numerals, the
  five-part request grammar with its printer, and the language it reads.
- `Eval`, `MaxSize`, `SizeMeaning`, `Canonical`: evaluation against an image and
  limits, the `max` sizes, what each kind of size gives and when it is refused,
  and the canonical path as a fixed point.
- `V2`: the Image API 2.1 size grammar, its language and canonical spelling.
- `Utf8`, `Ident`, `Route`: UTF-8 by its definition, the identifier codec, the
  router, and the links emitted.
- `Image`, `Color`, `Buffer`, `Raster`: pictures as values, per-pixel colour
  changes, the packing of pictures into bytes, and the class that changes a
  packed buffer in place.
- `Tiles`, `Levels`, `Pyramid`: tile grids, the choice of a level, and the tiled
  pyramid master with its decoder.
- `Pipeline`: the stages from decoded crop to encoded bytes.
- `Tag`, `Serve`: entity tags over both API versions, and the image handler that
  joins the links of the chain.
- `Pool`: the two semaphores as a state machine over requests.
- `Jp2`, `Pdf`, `Metrics`: the JPEG 2000 scaling, the PDF writer, the counters
  and latency histogram.
- `Wrappers`, `Arithmetic`, `Iteration`: results, facts about products and
  quotients, repeated application.

## How it is modelled

- Text is the byte string the server sees, one character per byte. Every
  separator is ASCII, so cutting bytes and cutting characters agree.
- Decimals of requests are exact and normalised (`12.50` is 125 tenths); the
  arithmetic of evaluation is over exact reals, rounding is `floor(x + 1/2)`, and
  results saturate at the 32-bit ceiling as in the source.
- The square root of the area limit is a function parameter. Results that need
  it to be a root say so at the one argument where it is used.
- A raster is a class around one byte array, with a ghost picture that every
  operation keeps equal to the unpacked buffer.
- The TIFF reader is a class with a position; a seek to a directory in `broken`
  fails and leaves the position at `stranded`. Tiles are those of the picture at
  the position, clipped at its edges; those in `damaged` do not decode.
- The resampler, the free rotation and the encoders are parameters. The first two
  are assumed to give well-formed buffers, the resampler one of the size asked for
  with its channels kept unless it fails.
- An entity tag is the triple it is computed from: identifier, source version and
  canonical text. The hash is taken to tell different triples apart.
- The pool is a transition system over requests. Asking for admission, asking
  for a decode permit, resuming, cancelling, and each of the two releases are
  separate steps, in any interleaving. A permit given back goes to the longest
  waiter.
- Image and tile dimensions are positive and there is at least one worker, as
  startup and the decoders ensure.

## Where the code and its comments disagree

The code was followed.

- `crates/server/src/main.rs:76` calls the queue depth the number of admitted
  waiters beyond the workers. More can wait for a moment, because a finished
  decode gives its admission back before its decode permit
  (`Pools.QueueOverDepthIff`, `Pools.QueueCanExceedDepth`).
- `crates/core/src/codec.rs:389-390` promises a level that still has enough
  detail. Factors are rounded, so a level narrower than its factor says can be
  chosen; `Levels.EnoughDetailIff` gives the exact condition. Only widths are
  promised: the factor ignores heights.
- `crates/core/src/v2.rs:148-173` is canonical in the sense of re-reading to the
  same output only under the condition of `V2.CanonicalV2Iff`.
- `crates/server/src/app.rs:577-580` derives the entity tag from the canonical text
  so that spellings of the same request share it. In version 2.1 different outputs
  can share it too: on an image of 3 by 100, `full/,50/0/default.jpg` and
  `full/2,/0/default.jpg` have one tag and 2 by 50 and 2 by 67 pixels
  (`Tags.OneTagTwoOutputs`, `Serving.RevalidationMisleads`). `Tags.OneTextOutputs`
  says for any two requests when that happens; in version 3.0 it never does.
- `crates/core/src/v2.rs:87-90` documents two different orders and meanings for
  the flags of a parsed size; the first is the one returned.
- `crates/core/src/eval.rs:348-354` says rounding can push a side past the
  region; over exact arithmetic it cannot (`Eval.NeverEnlargesUnflagged`).
- `crates/core/src/eval.rs:303-311` says rounding can never push `max` past a
  limit; holding a side at one pixel can (`MaxSize.MaxCanBeRefused`,
  `MaxSize.MaxServedIff`).
- `crates/server/src/metrics.rs:50-52` calls the buckets cumulative; they hold one
  count each and are summed when rendered. The 5xx counter also counts statuses
  outside 200 to 599 (`MetricsPage.FivesIff`).
- `crates/server/src/app.rs:399-406`: the in-flight gauge also counts permits
  handed over to requests that have not resumed, and the queued gauge is the
  number of waiters only under the condition of `Pools.GaugesCount`.

## Model

| member | source | states |
|---|---|---|
| `Pyramids.TiffPyramid.Open` | crates/core/src/codec.rs:329-380 | surveying the directories gives the first error there is, of a directory that is not tiled, a seek that fails or sizes that do not shrink, or else one level per directory with the remembered directory the one the decoder is at |
| `Pyramids.OpensIff` | crates/core/src/codec.rs:329-380 | a file opens exactly when every directory is tiled, every one after the first can be sought, and they strictly shrink |
| `Pyramids.TiffPyramid.DecodeRegion` | crates/core/src/codec.rs:418-483 | any non-empty rectangle inside an existing level, read from the directory asked for, comes back as the crop of the whole level, for every tile size and every edge tile, or as the exact error of a damaged tile or an overflowing size; each refusal has its exact condition; the remembered directory moves as the seek does, and where it was wrong the result still has the size asked for |
| `Pyramids.TiffPyramid.Assemble` | crates/core/src/codec.rs:444-482 | the loops over tile rows and columns, over partly filled output: what they leave is the crop, with no pixel missed and none overwritten wrongly, or the error of the first tile that fails |
| `Pyramids.TiffPyramid.DrawRow` | crates/core/src/codec.rs:451-481 | one row of tiles extends the region read to the next row, or ends it with what the whole comes to |
| `Pyramids.TiffPyramid.DrawTile` | crates/core/src/codec.rs:452-480 | one tile read and blitted extends the filled part of the region to that tile's right edge; the output is allocated by the first tile only; damage and overflow are told apart |
| `Pyramids.BlitTile` | crates/core/src/codec.rs:459-479 | blitting a tile lays its overlap with the region over the output, and nothing where there is none |
| `Pyramids.TileFills` | crates/core/src/codec.rs:459-479 | the overlap of a touched tile is never empty, so the skip is never taken, and blitting it fills the region to the tile's far edge |
| `Pyramids.TouchedTileStands` | crates/core/src/codec.rs:444-454 | a touched tile exists in its directory, and the number it is asked for by finds that tile |
| `Pyramids.TouchedTileOverlaps` | crates/core/src/codec.rs:445-468 | every tile in the computed row and column ranges exists, is non-empty and overlaps the region |
| `Pyramids.ExactlyOneTile` | crates/core/src/codec.rs:445-465 | each pixel of the region lies in exactly one tile, and that tile is in the ranges |
| `Pyramids.TilePlaced` | crates/core/src/codec.rs:460-479 | pasting one more tile's overlap turns "filled up to its left edge" into "filled up to its right edge" |
| `Pyramids.TiffPyramid.DecodeCrop` | crates/core/src/codec.rs:669-695 | a crop of the image yields the mapped rectangle of the chosen level, or the exact error of a seek, a tile or the size; the two refusals of the region decoder cannot come back |
| `Pyramids.ChosenStands` | crates/core/src/codec.rs:669-695 | for every pyramid, crop and factor the chosen level is one of the directories and the mapped rectangle is non-empty and inside its picture |
| `Pyramids.CropReads` | crates/core/src/codec.rs:669-695 | what decoding a crop reads, in whole numbers of widths, factor and edges: which directory, and which rectangle of it |
| `Pyramids.LevelsAreLadder` | crates/core/src/codec.rs:334-372 | what opening accepts is a ladder: positive sizes, strictly shrinking, factors from the widths |
| `Pyramids.SurveyShrinks` | crates/core/src/codec.rs:364-370 | the check on the recorded levels is the check on the pictures |
| `Pyramids.TiffDecoder.SeekToImage` | crates/core/src/codec.rs:440-443 | the reader's position after a seek, working or failing |
| `Pyramids.TiffDecoder.ReadChunk` | crates/core/src/codec.rs:494-499 | a tile number finds the current directory's picture at that tile's offset, clipped at the edges; a number out of range or a damaged tile is an error |
| `Pyramids.RunStaysInStep` | crates/core/src/codec.rs:440-443 | over any run of decodes whose seeks work, every region is read from the directory asked for |
| `Pyramids.SimpleMaster.DecodeCrop` | crates/core/src/codec/simple.rs:218-232 | one blit into a blank raster is the crop; it fails only when the size overflows |
| `Pyramids.FullScaleIsPlainCrop` | crates/core/src/codec.rs:669-695 | wherever no smaller level has the detail, the full level is chosen and the mapped rectangle is the crop itself |
| `Pyramids.DecodeBoth` | crates/core/src/codec.rs:669-695 | the tiled and the plain master on one picture, asked for one crop at full size, deliver the same bytes or the same error, unless the tiled file has a broken directory or tile |
| `Pyramids.SameCropSameBytes` | crates/core/src/codec/simple.rs:218-232 | rasters that show one crop hold one byte string |
| `Levels.AllPairsDescend` | crates/core/src/codec.rs:364-370 | the check on neighbouring levels orders all pairs |
| `Levels.ScaleFactorsRise` | crates/core/src/codec.rs:343-354 | scale factors are one at the full level and never fall on the way down |
| `Levels.SizesAreLevels` | crates/core/src/codec.rs:639-666 | the sizes advertised are the levels' sizes, each of them and no other |
| `Levels.SizesAscend` | crates/core/src/codec.rs:639-666 | the advertised sizes ascend strictly in both dimensions |
| `Levels.ChosenLevel` | crates/core/src/codec.rs:393-399 | the level chosen meets the factor and every smaller one exceeds it: the smallest with enough detail, the last of those that tie |
| `Levels.FactorIs` | crates/core/src/codec.rs:343-346 | a level's factor is the whole number nearest to the full width over its own, halves going up: f exactly when (2f - 1) w <= 2 W < (2f + 1) w |
| `Levels.ChoiceIff` | crates/core/src/codec.rs:393-399 | which level is chosen, in whole numbers of the widths and the whole part of the factor alone |
| `Levels.FullSizeIff` | crates/core/src/codec.rs:393-399 | the full image is read exactly when the next level is too narrow for the factor; for a factor below two, when three of its widths are at most two full ones |
| `Levels.HalvedFactor` | crates/core/src/codec.rs:343-346 | levels made by halving, odd widths going either way, have the powers of two as factors while they are about twice as wide as those |
| `Levels.RegionInside` | crates/core/src/codec.rs:669-695 | every non-empty crop maps to a non-empty rectangle inside the level |
| `Levels.RegionCovers` | crates/core/src/codec.rs:669-695 | the mapped rectangle covers the crop, cut off only by the level's edge, and has no row or column the crop does not touch |
| `Levels.RegionIff` | crates/core/src/codec.rs:669-695 | it is the only rectangle of the level that does |
| `Levels.RegionAtFullScale` | crates/core/src/codec.rs:669-695 | at factor one the mapped rectangle is the crop |
| `Levels.EnoughDetailIff` | crates/core/src/codec.rs:393-399 | no downscale ever decodes fewer columns than it outputs, over all crops and widths, exactly when every level is at least as wide as the full width divided by its factor |
| `Levels.NarrowLevelIsChosen` | crates/core/src/codec.rs:393-399 | a pyramid where that fails: a 5-pixel level behind a 7-pixel image serves a full-width request |
| `Tiles.TileOfPixel` | crates/core/src/codec.rs:444-448 | a pixel lies in exactly one tile of a row of tiles, and that one exists |
| `Rasters.Raster.ZeroedLike` | crates/core/src/image.rs:202-229 | a blank raster of the same layout, or the overflow error exactly when the byte count exceeds 64 bits |
| `Rasters.Raster.FromBytes` | crates/core/src/image.rs:35-76 | the picture a packed buffer stands for |
| `Rasters.Raster.Blit` | crates/core/src/image.rs:249-295 | the rectangle pasted and everything else unchanged; layout and bounds errors on their exact conditions, with the buffer untouched |
| `Rasters.Raster.Mirror` | crates/core/src/image.rs:319-334 | the in-place swap of packed pixels mirrors the picture, any channel count |
| `Rasters.Raster.Rotated90` | crates/core/src/image.rs:376-413 | the copy into a second buffer is the picture turned a quarter clockwise |
| `Rasters.Raster.Rotate180` | crates/core/src/image.rs:428-438 | the in-place reversal of pixels is the half turn |
| `Rasters.Raster.RotateQuarters` | crates/core/src/image.rs:345-360 | any count of quarter turns, whichever of the three paths runs, is that many quarter turns |
| `Rasters.Raster.IntoGray` | crates/core/src/image.rs:450-490 | every colour pixel becomes its luma, alpha kept; gray is handed back as it is |
| `Rasters.Raster.IntoBitonal` | crates/core/src/image.rs:496-531 | every pixel becomes its luma thrown to black or white, alpha kept, also where the buffer is changed in place |
| `Rasters.Raster.FlattenOverWhite` | crates/core/src/image.rs:629-666 | alpha composited over white; opaque is handed back as it is |
| `Rasters.Raster.PicIsUnpacked` | crates/core/src/image.rs:35-76 | a valid raster's picture is its buffer unpacked |
| `Rasters.Raster.DataIsPacking` | crates/core/src/image.rs:35-76 | and its buffer is the picture packed |
| `Buffers.UnpackingIsInjective` | crates/core/src/image.rs:35-76 | different buffers are different pictures |
| `Buffers.UnpackPacking` | crates/core/src/image.rs:35-76 | unpacking undoes packing for every picture |
| `Images.TurnsAddModFour` | crates/core/src/image.rs:345-360 | turns add modulo four |
| `Images.TwoQuartersAreHalf` | crates/core/src/image.rs:428-438 | two quarter turns are the half turn |
| `Images.TurnsOfQuarters` | crates/core/src/image.rs:345-360 | the four turns there are, one for each remainder |
| `Images.MirrorTwice` | crates/core/src/image.rs:319-334 | the mirror is its own inverse |
| `Images.TurnAfterMirror` | crates/core/src/image.rs:319-360 | k turns after a mirror are a mirror after 4-k turns |
| `Colors.LumaIsNear` | crates/core/src/image.rs:100-106 | luma is the whole number nearest to 0.299 red + 0.587 green + 0.114 blue, halves going up |
| `Colors.GrayIs` | crates/core/src/image.rs:450-490 | a pixel made gray has the level nearest to its brightness and keeps its alpha |
| `Colors.BitonalIs` | crates/core/src/image.rs:496-531 | a pixel made bitonal is 255 exactly when its brightness is at least 127.5, else 0, and keeps its alpha |
| `Colors.FlatIs` | crates/core/src/image.rs:629-666 | a flattened pixel has each colour nearest to its blend with white by the alpha, which is gone; opaque pixels are unchanged |
| `Colors.LumaBetweenChannels` | crates/core/src/image.rs:100-106 | and lies between the channels, so a neutral pixel keeps its level |
| `Colors.BlendBounds` | crates/core/src/image.rs:115-119 | the 16-bit numerator cannot overflow and the quotient is a byte |
| `Colors.CompositeOverWhite` | crates/core/src/image.rs:115-119 | the nearest level to the blend; opaque keeps the colour, transparent is white, nothing gets darker |
| `Colors.ConversionsSettle` | crates/core/src/image.rs:450-531 | each conversion applied twice is itself, and bitonal after gray is bitonal |
| `Colors.MapThenMirror` | crates/core/src/image.rs:319-334 | any per-pixel change commutes with the mirror |
| `Colors.MapThenTurn` | crates/core/src/image.rs:345-438 | and with any number of quarter turns |
| `Colors.MapThenCrop` | crates/core/src/codec/simple.rs:218-232 | and with cropping |
| `Images.TurnedSides` | crates/core/src/image.rs:345-360 | turns keep the channels, and swap the sides when odd in number |
| `Images.TurnedFrom` | crates/core/src/image.rs:345-438 | the place any number of clockwise quarter turns takes each pixel from, in coordinates |
| `Pipeline.Resize` | crates/core/src/pipeline.rs:164-229 | the output has the size asked for, or the resampler's failure is passed on; the raster itself comes back when it already has it |
| `Pipeline.Recolour` | crates/core/src/pipeline.rs:132-136 | the quality picks the conversion |
| `Pipeline.Rotate` | crates/core/src/pipeline.rs:142-148 | nothing, quarter turns, or the free rotation, by the angle |
| `Pipeline.QuartersAreTheAngle` | crates/core/src/pipeline.rs:144-145 | the count of quarter turns times ninety is the angle, and fits a byte for every angle the grammar allows |
| `Pipeline.Render` | crates/core/src/pipeline.rs:128-148 | the stages over shared and replaced buffers give what the composition of their meanings gives, or the resampler's failure |
| `Pipeline.Encode` | crates/core/src/pipeline.rs:150-151 | the encoder is handed the packing of the finished picture; its failure is passed on |
| `Pipeline.ExecuteWhole` | crates/core/src/pipeline.rs:121-152 | crop, render and encode over a whole-image master, with its exact failures |
| `Pipeline.ExecuteTiled` | crates/core/src/pipeline.rs:121-152 | the same over a tiled pyramid, at the level the factor chooses, with its exact failures, none of them a refusal of the region decoder |
| `Pipeline.ColourMayComeLast` | crates/core/src/pipeline.rs:131-148 | for every quarter-turn plan, changing colour after mirror and turns gives the same picture |
| `Pipeline.RecolourThenMirror` | crates/core/src/pipeline.rs:131-140 | colour and mirror commute |
| `Pipeline.RecolourThenTurn` | crates/core/src/pipeline.rs:131-148 | colour and turns commute |
| `Pipeline.OutputShape` | crates/core/src/pipeline.rs:128-148 | the rendering has the plan's size, sides swapped by an odd number of turns |
| `Pipeline.UntouchedRequest` | crates/core/src/pipeline.rs:128-148 | an unscaled, unturned, unrecoloured plan gives the pixels back |
| `Pipeline.QuarterTurnIff` | crates/core/src/pipeline.rs:142-148 | an angle is a count of quarter turns exactly when its value is ninety times that count |
| `Pipeline.EveryPixel` | crates/core/src/pipeline.rs:128-148 | every pixel of a quarter-turn output is the pixel of the resized picture from the place mirror and turns put there, unchanged for `default` and `color`, within half a level of the weighted mean for `gray`, black or white by that mean for `bitonal`, alpha kept |
| `Pipeline.FreeTurnIs` | crates/core/src/pipeline.rs:142-148 | at any other angle the free rotation is given that angle and the picture recoloured and mirrored, pixel by pixel |
| `Pipeline.NeededIs` | crates/core/src/pipeline.rs:121-127 | the factor asked for times the output width is the crop width |
| `Pipeline.TiledIsWhole` | crates/core/src/pipeline.rs:121-152 | from an undamaged pyramid a plan gives exactly what it gives from the whole picture, wherever no smaller level has the detail |
| `Pipeline.WholePixels` | crates/core/src/pipeline.rs:121-152 | an unscaled plan of quarter turns: the bytes are the encoder's, in the plan's format, for a picture whose every pixel is the image's from its place in the crop, in the colours asked for |
| `Pipeline.EnoughColumns` | crates/core/src/pipeline.rs:121-127 | a plan that does not enlarge is decoded with at least the columns it outputs where levels are as wide as their factors promise |
| `Eval.ResolveRegion` | crates/core/src/eval.rs:225-282 | every region that resolves is a non-empty rectangle of the image |
| `Eval.PixelRegionIsOverlap` | crates/core/src/eval.rs:225-282 | a pixel region holds exactly the pixels that are in the rectangle and on the image, and is refused exactly when there are none |
| `Eval.SquareIsCentred` | crates/core/src/eval.rs:225-282 | the square has the shorter side and is centred to within a pixel |
| `Eval.PercentRegionIs` | crates/core/src/eval.rs:225-282 | a percent region has corner and sides rounded to the nearest pixel, cut off by the edge, and is refused exactly when the corner is off the image or a side rounds to nothing |
| `Eval.FullIsNamed` | crates/core/src/eval.rs:368-405 | a canonical path says `full` exactly for the whole image |
| `Eval.Evaluate` | crates/core/src/eval.rs:179-209 | every plan has a crop inside the image, a size of at least one pixel within all limits, and says truly whether it upscales |
| `Eval.NeverEnlargesUnflagged` | crates/core/src/eval.rs:294-356 | without the flag no legal size exceeds its region, so the final clamp changes nothing |
| `Eval.ConfinedTouchesBox` | crates/core/src/eval.rs:336-345 | a confined size fits its box and touches it on at least one side |
| `Eval.AspectKept` | crates/core/src/eval.rs:312-325 | the side left open is within half a pixel of the exact aspect; the given side is exact |
| `SizeMeaning.RequestedIs` | crates/core/src/eval.rs:294-356 | every kind of size gives exactly the sides it asks for, `pct:n` the n percent of both sides rounded, and is refused for the missing flag exactly when the asked side, sides or box exceed the region |
| `SizeMeaning.SidesExist` | crates/core/src/eval.rs:294-356 | every size asks for some sides |
| `SizeMeaning.ServedAsAsked` | crates/core/src/eval.rs:179-209 | what a request evaluates to, whatever its size: refused for the missing flag, as less than a pixel, or by the limits, each exactly when so, and otherwise a plan with exactly the crop and sides asked for |
| `SizeMeaning.MaxServedAsAsked` | crates/core/src/eval.rs:179-209 | a `max` request gets its region at the largest scale inside every limit (and not above one without the flag), cut down to whole pixels but not to none, or is refused by the limits |
| `SizeMeaning.LargestExists` | crates/core/src/eval.rs:359-364 | there is such a scale |
| `MaxSize.FitScaleIsOptimal` | crates/core/src/eval.rs:359-364 | a scale keeps the region inside all three limits exactly when it is at most the limit scale |
| `MaxSize.MaxServedIff` | crates/core/src/eval.rs:303-311 | a `max` size, flagged or not, breaks the limits exactly when a limit is zero or the region is so long and narrow that (area + 1) squared times its short side is at most area times its long side, with the area limit below the long side's own |
| `MaxSize.MaxRefusedIff` | crates/core/src/eval.rs:179-209 | a `max` request whose region resolves is refused exactly then, and always for the limits |
| `MaxSize.MaxAlwaysServed` | crates/core/src/eval.rs:186-195 | when the area limit covers both side limits, `max` and `^max` are answered whenever their region resolves |
| `MaxSize.MaxCanBeRefused` | crates/core/src/eval.rs:186-195 | an image and limits whose `max` request evaluates to that refusal |
| `Canonical.TurnFolded` | crates/core/src/eval.rs:196-208 | degrees folded into one turn stay normal, are below 360 and fold to themselves |
| `Canonical.WholeTurnsOff` | crates/core/src/eval.rs:196-208 | folding takes whole turns off the angle and nothing else |
| `Canonical.AngleKept` | crates/core/src/eval.rs:196-208 | an angle the grammar admits is kept, except that 360 becomes 0 |
| `Canonical.CanonicalSizeParses` | crates/core/src/eval.rs:382-405 | the printed size is legal, slash-free and parses to what it says |
| `Canonical.CanonicalSizeResolves` | crates/core/src/eval.rs:294-356 | the canonical size resolves to the very sides and flag it was printed from |
| `Canonical.PlanIsPrintable` | crates/core/src/eval.rs:382-405 | every plan's canonical path parses |
| `Canonical.CanonicalFixedPoint` | crates/core/src/eval.rs:382-405 | reading a plan's canonical path back and evaluating it on the same image and limits gives the identical plan |
| `Canonical.CanonicalTextDeterminesPlan` | crates/core/src/eval.rs:382-405 | equal canonical paths of version 3.0 are equal plans |
| `Decimals.U32RoundTrip` | crates/core/src/grammar.rs:220-225 | printing and parsing an integer |
| `Decimals.ParseU32Iff` | crates/core/src/grammar.rs:220-225 | an integer is read exactly from a number's own spelling behind zeros, if it fits 32 bits |
| `Decimals.ParseDecimalIff` | crates/core/src/grammar.rs:230-247 | a decimal is read exactly from digits, or digits on both sides of one point, as the number they stand for |
| `Decimals.LeadingZeros` | crates/core/src/grammar.rs:220-225 | a digit run is its number's own spelling behind some zeros: reading forgets those and nothing else |
| `Decimals.DecimalRoundTrip` | crates/core/src/grammar.rs:230-258 | printing and parsing a decimal |
| `Decimals.ParsedValue` | crates/core/src/grammar.rs:230-247 | a point form is accepted and stands for the number it spells, whatever zeros it carries |
| `Decimals.NormalUnique` | crates/core/src/grammar.rs:256-258 | normal decimals with one value are one decimal, so equality is equality of numbers |
| `Grammar.RegionRoundTrip` | crates/core/src/grammar.rs:266-342 | parse undoes print for every legal region |
| `Grammar.SizeRoundTrip` | crates/core/src/grammar.rs:362-435 | parse undoes print for every legal size |
| `Grammar.RotationRoundTrip` | crates/core/src/grammar.rs:454-490 | parse undoes print for every legal rotation |
| `Grammar.QualityFormatShape` | crates/core/src/grammar.rs:498-583 | parse undoes print for qualities and formats, whose texts hold no separator |
| `Grammar.ParseRequest` | crates/core/src/grammar.rs:622-649 | whatever parses is legal: positive sizes, percentages and degrees in range, no percentage above 100 without the flag |
| `Grammar.CutJoined` | crates/core/src/grammar.rs:622-649 | the cut at slashes and at the last point gives back the joined components |
| `Grammar.RequestRoundTrip` | crates/core/src/grammar.rs:622-661 | parse undoes print for every legal request |
| `Grammar.PrintInjective` | crates/core/src/grammar.rs:652-661 | two legal requests with one spelling are one request |
| `Grammar.PrintIsCanonical` | crates/core/src/grammar.rs:622-661 | the print of whatever parses parses to the same request and prints as itself |
| `Spelling.ParseRegionIff` | crates/core/src/grammar.rs:266-310 | the region parser reads exactly the spellings of legal regions |
| `Spelling.ParseSizeIff` | crates/core/src/grammar.rs:362-418 | the size parser reads exactly the spellings of legal sizes |
| `Spelling.ParseRotationIff` | crates/core/src/grammar.rs:454-472 | the rotation parser reads exactly the spellings of legal rotations |
| `Spelling.CutPathIff` | crates/core/src/grammar.rs:622-636 | a path is cut exactly when it is four segments of which the last has a point, at its last point |
| `Spelling.ParseRequestIff` | crates/core/src/grammar.rs:622-649 | the request parser reads exactly the spellings of legal requests, each as the request it spells |
| `Spelling.RefusedFor` | crates/core/src/grammar.rs:622-649 | any other path is refused for its structure, or for the first of its components from the left that spells nothing |
| `V2.SizeTranslation` | crates/core/src/v2.rs:97-141 | apart from the full-size aliases, a 2.1 size is accepted exactly when the 3.0 grammar accepts it behind a `^`, with the same meaning |
| `V2.RequestTranslation` | crates/core/src/v2.rs:57-85 | the same for whole request paths |
| `V2.ParseSizeV2Iff` | crates/core/src/v2.rs:97-141 | the 2.1 size parser reads exactly `full` and `max` as the full size, and every other legal size text as the size it spells, free to enlarge, with its two flags |
| `V2.ParseRequestV2Iff` | crates/core/src/v2.rs:57-85 | the 2.1 request parser reads exactly the spellings of legal requests |
| `V2.RefusedForV2` | crates/core/src/v2.rs:57-85 | any other path is refused for its structure, for its size before all else, or for the first other component that spells nothing |
| `V2.RereadIs` | crates/core/src/v2.rs:148-173 | every 2.1 canonical path parses, as the request it spells |
| `V2.CanonicalV2Iff` | crates/core/src/v2.rs:148-173 | it gives the same output back exactly when the size was spelled `full` on the whole image, is spelled in both sides, or has the height its width implies |
| `V2.TextOutlivesOutput` | crates/core/src/v2.rs:148-173 | a request that does not read back alike shares its canonical path with what it reads back as, whenever that evaluates, and exactly when that is |
| `V2.CanonicalV2CanDiffer` | crates/core/src/v2.rs:148-173 | a request path whose canonical path does not give its output back |
| `V2.TextsCollide` | crates/core/src/v2.rs:148-173 | two request paths for different outputs with one canonical path |
| `Ident.Unescape` | crates/core/src/ident.rs:55-71 | the loop over bytes is one left-to-right percent-decoding pass (section 2.1 of RFC 3986), or its error |
| `Ident.Decode` | crates/core/src/ident.rs:48-97 | the checks in order on the decoded bytes, first failure reported |
| `Ident.DecodesIff` | crates/core/src/ident.rs:55-71 | one pass decodes exactly the spellings of a text and to that text: each byte as itself or as an escape in digits of either case, from a literal table, once and not again |
| `Ident.EscapesUndone` | crates/core/src/ident.rs:55-71 | one pass undoes the all-lower-case and the all-upper-case escaping of every byte string |
| `Ident.CaseDoesNotMatter` | crates/core/src/ident.rs:140-147 | raw identifiers that differ only in the case of their escapes' digits decode alike, refusals included |
| `Ident.AcceptedIff` | crates/core/src/ident.rs:48-97 | an identifier is accepted, and as a path, exactly when it spells that path and the path is safe: the encoding of scalar values, no control byte or backslash, no empty, `.` or `..` segment |
| `Ident.RefusalIs` | crates/core/src/ident.rs:48-97 | any other identifier is refused for the first reason that applies: empty, no spelling, not UTF-8, a control character, a backslash, a segment |
| `Utf8.ValidUtf8Iff` | crates/core/src/ident.rs:82 | the byte ranges of the check admit exactly the encodings of scalar values (sections 3 and 4 of RFC 3629) |
| `Ident.EncodedByteIs` | crates/core/src/ident.rs:111-129 | printable ASCII but for eight characters is kept, every other byte escaped in capital digits |
| `Ident.Encoded` | crates/core/src/ident.rs:111-129 | the loop over bytes is the encoding |
| `Ident.DecodeUndoesEncoding` | crates/core/src/ident.rs:111-129 | one pass undoes the encoder for every byte string |
| `Ident.EncodingShape` | crates/core/src/ident.rs:111-129 | encoded text is printable ASCII without slash or any other reserved character |
| `Ident.EncodingPlain` | crates/core/src/ident.rs:111-129 | text is left alone exactly when it holds no byte that must be escaped |
| `Ident.IdentifierRoundTrip` | crates/core/src/ident.rs:48-129 | every decodable identifier survives encoding and decoding again |
| `Route.ImageRouteIff` | crates/server/src/app.rs:730-773 | a path is an image request exactly when it is a version's prefix, one segment and four more |
| `Route.InfoRouteIff` | crates/server/src/app.rs:730-773 | a path asks for image information exactly when it is a prefix, one segment and info.json |
| `Route.RedirectIff` | crates/server/src/app.rs:730-773 | a path is redirected exactly when it is a prefix and one segment, not empty |
| `Route.ServiceRouteIff` | crates/server/src/app.rs:730-773 | the two service paths, and no others |
| `Route.ImageRouteSpellsPath` | crates/server/src/app.rs:730-773 | an image route's parts spell the path again |
| `Route.RedirectLeadsToInfo` | crates/server/src/app.rs:414-430 | the redirect of a bare identifier routes to image information for the same identifier |
| `Route.CanonicalLinkLeadsBack` | crates/server/src/app.rs:608-613 | every 3.0 canonical link routes to the image service, names the same identifier and evaluates to the plan it was printed from |
| `Route.CanonicalLinkV2Routes` | crates/server/src/app.rs:608-613 | every 2.1 canonical link routes to the 2.1 service and the same identifier, and is read there as the request it spells |
| `Tags.OneTextOutputs` | crates/server/src/app.rs:574-580 | two requests of either version with one canonical text, and so one tag: the same output if each reads back alike, different outputs if just one does, if neither the same exactly when the heights are; always the same where one of them is of version 3.0 |
| `Tags.OneTagTwoOutputs` | crates/server/src/app.rs:90-102 | two 2.1 requests for different outputs with one tag |
| `Tags.EvaluatedStands` | crates/server/src/app.rs:537-546 | what parsing in either version and evaluating leave true of a request and its plan |
| `Grammar.JoinInjective` | crates/core/src/grammar.rs:652-661 | slash-free components with one path are the same components |
| `Serving.Serve` | crates/server/src/app.rs:526-627 | the handler from raw identifier and parameters to its reply: every branch in order, with its exact condition; nothing is called unmodified unless its tag is held |
| `Serving.ServePath` | crates/server/src/app.rs:526-627 | from a request path: the reply is never an internal refusal nor unmodified for a tag not held, and the link of a 3.0 reply is answered with that very reply |
| `Serving.NeverInternal` | crates/core/src/image.rs:74-79 | whatever the path, the file and the settings, a broken reply is for a file that does not open or read, a size beyond memory, or a kernel that failed |
| `Serving.LinkAnswersAlike` | crates/server/src/app.rs:608-613 | asking for a 3.0 link gives the reply it came with, byte for byte, and asking with its tag that nothing changed |
| `Serving.LinkV2AnswersAlike` | crates/server/src/app.rs:608-613 | asking for a 2.1 link gives the same bytes where the size reads back alike |
| `Serving.RevalidationSound` | crates/server/src/app.rs:577-588 | a client told that nothing changed would have been sent the bytes it was given with the tag, whenever one of the requests is of version 3.0 or both read back alike |
| `Serving.HeldTagsDecide` | crates/server/src/app.rs:577-590 | for any tags held: a request answered with bytes and a tag is told that nothing changed exactly when that tag is held, and otherwise given that very reply |
| `Serving.NotModifiedStands` | crates/server/src/app.rs:577-590 | a reply that nothing changed is for a held tag, of the identifier asked for and of the file as it is now |
| `Serving.OldTagsCountForNothing` | crates/server/src/app.rs:577-590 | tags of another version of the file change no reply |
| `Serving.ReplacedFileIsServedAnew` | crates/server/src/app.rs:577-590 | once a file is replaced, a client with a tag given before it is answered as if it held nothing |
| `Serving.ReplyIs` | crates/server/src/app.rs:526-627 | a reply is 404 exactly when the identifier names no path, 400 for the grammar exactly when it does and the rest is no request of the version, 400 for the evaluation only with its error, and bytes are in the format asked for |
| `Serving.ServedPixels` | crates/server/src/app.rs:526-627 | from the path to the pixels: for an unscaled request on an undamaged file the bytes served are the encoder's, in the format asked for, for a picture whose every pixel is the full image's from the place in the region that mirror and turns give it, in the colours asked for |
| `Serving.RevalidationMisleads` | crates/server/src/app.rs:577-588 | two 2.1 requests where it would not |
| `Pools.StepSafe` | crates/server/src/app.rs:553-566 | every step of every request keeps both permit accounts and everyone in one place |
| `Pools.RunSafe` | crates/server/src/app.rs:553-566 | so does every run, cancellations and all interleavings included |
| `Pools.Bounds` | crates/server/src/app.rs:553-566 | at any moment of any run: decodes within workers, admissions within workers plus depth, waiters within depth plus half-released decodes, and a refusal only with every admission permit held |
| `Pools.ArrivalIff` | crates/server/src/app.rs:553-555 | every new request can be admitted or refused and only one of the two: admitted exactly when fewer than workers plus depth hold a permit |
| `Pools.AcquireIff` | crates/server/src/app.rs:556-558 | a request that asks to decode does so at once exactly when a permit is free, and otherwise waits behind all others |
| `Pools.ReleaseIff` | crates/server/src/app.rs:556-566 | a permit given back is the first waiter's, who then decodes without asking again, or free when no one waits |
| `Pools.QueueOverDepthIff` | crates/server/src/app.rs:565-566 | more than `depth` requests wait exactly when more decodes are between their releases than admission permits lie outside queue and decodes |
| `Pools.QueueCanExceedDepth` | crates/server/src/app.rs:565-566 | a run in which that happens |
| `Pools.GaugesCount` | crates/server/src/app.rs:399-406 | what the two gauges count, and when the queued gauge is the number of waiters |
| `Pools.WaiterHasHolder` | crates/server/src/app.rs:556-558 | a waiter never waits on nobody: some holder can take a step towards its release |
| `Pools.RunsAreShort` | crates/server/src/app.rs:553-566 | without arrivals every run ends within a bound read off the state |
| `Pools.AtRestIff` | crates/server/src/app.rs:553-566 | and ends exactly in the initial state: no cancellation and no order of releases loses a permit |
| `Pools.FirstComeFirstServed` | crates/server/src/app.rs:556-558 | over any run, those who waited or came to wait, less those who gave up, are those served followed by those still waiting, in order |
| `Jp2Masters.Jp2Master.LevelsFor` | crates/core/src/codec/jp2.rs:155-164 | the loop finds the highest level whose factor does not exceed the need, or level zero |
| `Jp2Masters.ChosenIff` | crates/core/src/codec/jp2.rs:155-164 | with at most 32 levels that is: the powers of two that fit are those up to the choice |
| `Jp2Masters.Jp2Master.DecodeAt` | crates/core/src/codec/jp2.rs:266-298 | the rectangle decoded is non-empty, inside the reduced image and, on every downscale, at least as wide as the output |
| `Jp2Masters.CoveringIsSmallest` | crates/core/src/codec/jp2.rs:180-191 | a rectangle of samples covers the request exactly when it takes in the covering |
| `Jp2Masters.CoveringComposes` | crates/core/src/codec/jp2.rs:180-191 | covering by a and then by b is covering by their product |
| `Jp2Masters.LevelsCompose` | crates/core/src/codec/jp2.rs:180-191 | so reducing level by level is reducing at once |
| `Jp2Masters.CoveringInside` | crates/core/src/codec/jp2.rs:180-191 | the covering of a rectangle of the image is inside the reduced image |
| `Jp2Masters.AdvertisedIsDecoded` | crates/core/src/codec/jp2.rs:200-227 | the size advertised for a level is the size a whole-image decode at it delivers |
| `Pdfs.EncodePdf` | crates/core/src/encode.rs:298-407 | the two loops write the five objects and the table of the document specified |
| `Pdfs.WriteObjects` | crates/core/src/encode.rs:363-378 | the recorded offsets are the byte counts before each object |
| `Pdfs.XrefStartReads` | crates/core/src/encode.rs:379-405 | the number a reader finds at the end of the file is the byte where the table begins |
| `Pdfs.EntryReads` | crates/core/src/encode.rs:386-394 | a table line gives back its offset, however many digits it has |
| `Pdfs.EntryFinds` | crates/core/src/encode.rs:363-394 | every table entry names the byte where its object begins (section 7.5.4 of ISO 32000-1) |
| `Pdfs.StreamReads` | crates/core/src/encode.rs:332-362 | a stream comes back whole by its Length, whatever its bytes |
| `Pdfs.CrossReferencesAreExact` | crates/core/src/encode.rs:298-407 | for every page and every JPEG: the header comes first, and startxref, all five entries and both stream lengths are exact |
| `Pdfs.PageReads` | crates/core/src/encode.rs:298-378 | following the references from the trailer's root leads to the page, its image and its drawing; box, matrix and image dictionary all give back the width and height, and the dictionary the colours |
| `Pdfs.ObjectEnds` | crates/core/src/encode.rs:363-378 | every object runs up to the next, or the table, and ends with its keyword |
| `MetricsPage.Metrics.Observe` | crates/server/src/metrics.rs:83-109 | every counter and bucket keeps counting the list of requests observed, one longer |
| `MetricsPage.Metrics.Render` | crates/server/src/metrics.rs:131-207 | each figure of the page is the count, over that list, of what its label says |
| `MetricsPage.Metrics.Accumulate` | crates/server/src/metrics.rs:179-196 | the running sum at each bound is the number of requests that met it, and past the last bound all of them |
| `MetricsPage.Position` | crates/server/src/metrics.rs:100-105 | the search finds the first bound met, or the last bucket |
| `MetricsPage.BucketIff` | crates/server/src/metrics.rs:100-105 | a request lands at or before a bucket exactly when it meets its bound |
| `MetricsPage.FiguresAgree` | crates/server/src/metrics.rs:131-207 | buckets never fall, and +Inf, the count, the family total and the class total are one number |
| `MetricsPage.FiguresInNumbers` | crates/server/src/metrics.rs:131-207 | the page in literal figures: the ten bounds in nanoseconds, the classes by status, the refusals, and the total time to within a microsecond a request |
| `MetricsPage.FivesIff` | crates/server/src/metrics.rs:90-96 | the 5xx figure counts 5xx responses exactly when no status outside 200 to 599 was observed |

## Left out

- Binary floating point: rounding error, shortest printing of floats and the
  float square root are replaced by exact decimals, reals and a parameter.
- The pixels of the resampler and of the free rotation (`rotate_arbitrary`).
- The codecs themselves: TIFF chunk decoding and its errors, colour conversion of
  decoded tiles, the JPEG 2000, JPEG and PNG decoders, and all encoders except
  the PDF writer, whose JPEG is an arbitrary byte string. Elsewhere an encoder is
  any function to bytes or a failure.
- Pyramids.TiffDecoder.SeekToImage: whether a directory can be sought is fixed for
  the life of a reader; a directory that works once and fails later is not modelled.
- Pyramids.TiffPyramid.DecodeRegion: after a failed seek the remembered directory
  can be wrong (Pyramids.FailedSeekMisleads). What is then read is promised its
  size and its possible errors, not its pixels.
- Pyramids.TiffDecoder.ReadChunk: a tile either decodes or is damaged for the life
  of a reader, with one error for all causes; 32-bit overflow of the tile number is
  not modelled.
- Pipeline.ExecuteWhole: one master class is modelled for the whole-image formats
  and one for tiled pyramids, each with its own execution method, in place of the
  dispatch through the master interface.
- Serving.Serve: serves tiled pyramids; resolving an identifier to its file, the
  sniffing of the file's format, and the wildcard form of If-None-Match are outside,
  and so is the pool, which has its own model.
- Serving.ServedPixels: speaks of requests that need no resampling, on a file whose
  second picture is at most two thirds as wide as the first, turned by whole quarters;
  what the resampler and the free rotation make of a picture is outside
  (Pipeline.EveryPixel starts at the resized picture, Pipeline.FreeTurnIs stops at
  the picture handed to the rotation).
- Levels.EnoughDetailIff: speaks of widths only, since the factor is computed from
  widths.
- Jp2Masters.Jp2Master.DecodeAt: stops at the level and the rectangle; the wavelet
  decode itself is outside. More than 32 resolution levels are in the loop's
  contract but not in the lemmas.
- V2.CanonicalV2Iff: compares what execution reads (crop, size, mirror, degrees,
  quality, format), not the two bookkeeping flags of a plan.
- Pools.Bounds: the pool serves image requests only; requests for image
  information take no permits. Shutdown of the runtime and closing of a semaphore
  are not modelled.
- MetricsPage.Metrics.Observe: counters are unbounded and updates sequential;
  64-bit wrap-around and relaxed atomics between threads are not modelled.
- MetricsPage.Metrics.Render: gives the figures of the page, not its text; the two
  gauges are passed through by the source and covered by Pools.GaugesCount.
- Pdfs.CrossReferencesAreExact: the width of a table line is not claimed to be
  the 20 bytes the standard asks for; the lines written have 19.
- Tags.OneTextOutputs: speaks of the canonical text an entity tag is computed from;
  the quality of the hash is outside.
- HTTP headers and sockets, TLS, the object store, local files and their
  resolution, the command line, logging, and the serialisation of info.json.
