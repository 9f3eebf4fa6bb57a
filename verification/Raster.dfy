// The packed raster: one row-major byte buffer, changed in place. The ghost
// picture `pic` is what the buffer stands for; every operation says what
// becomes of it.
module Rasters {
  import opened Wrappers
  import opened Arithmetic
  import opened Images
  import opened Buffers
  import opened Colors

  const USIZE_MAX: nat := 0xFFFF_FFFF_FFFF_FFFF

  datatype RasterError = LayoutMismatch | OutOfBounds | SizeOverflow

  // A source rectangle for a blit.
  datatype CopyRect = CopyRect(srcX: nat, srcY: nat, width: nat, height: nat)

  class Raster {
    const width: nat
    const height: nat
    const channels: nat
    const data: array<Byte>
    ghost var pic: Picture

    ghost predicate Packed() {
      1 <= channels <= 4 && data.Length == width * height * channels
    }

    // The bytes of pixel (x, y).
    ghost function At(x: nat, y: nat): Pixel
      requires Packed() && x < width && y < height
      reads data
    {
      Cell(data[..], width, height, channels, x, y)
    }

    ghost predicate Valid()
      reads this, data
    {
      && Packed()
      && pic.width == width && pic.height == height && pic.channels == channels
      && forall x, y {:trigger At(x, y)} :: 0 <= x < width && 0 <= y < height ==> At(x, y) == pic.rows[y][x]
    }

    // The picture is the buffer, unpacked.
    lemma PicIsUnpacked()
      requires Valid()
      ensures pic == Unpacked(data[..], width, height, channels)
    {
      var d := data[..];
      forall y, x | 0 <= y < height && 0 <= x < width
        ensures pic.rows[y][x] == Unpacked(d, width, height, channels).rows[y][x]
      {
        assert At(x, y) == Cell(d, width, height, channels, x, y);
      }
      SamePicture(pic, Unpacked(d, width, height, channels));
    }

    // And the buffer is the picture, packed.
    lemma DataIsPacking()
      requires Valid()
      ensures data[..] == Packing(pic)
    {
      PicIsUnpacked();
      UnpackPacking(pic);
      UnpackingIsInjective(data[..], Packing(pic), width, height, channels);
    }

    // Re-establishes the ghost picture from the buffer.
    ghost method Refresh()
      requires Packed()
      modifies this`pic
      ensures Valid() && pic == Unpacked(data[..], width, height, channels)
    {
      pic := Unpacked(data[..], width, height, channels);
    }

    // A blank raster: every byte zero.
    constructor Zeroed(width: nat, height: nat, channels: nat)
      requires 1 <= channels <= 4
      ensures Valid() && fresh(data)
      ensures this.width == width && this.height == height && this.channels == channels
      ensures forall k :: 0 <= k < data.Length ==> data[k] == 0
    {
      this.width, this.height, this.channels := width, height, channels;
      data := new Byte[width * height * channels](_ => 0);
      new;
      Refresh();
    }

    // A raster around a buffer produced elsewhere.
    constructor FromBytes(width: nat, height: nat, channels: nat, bytes: seq<Byte>)
      requires 1 <= channels <= 4 && |bytes| == width * height * channels
      ensures Valid() && fresh(data) && data[..] == bytes
      ensures this.width == width && this.height == height && this.channels == channels
      ensures pic == Unpacked(bytes, width, height, channels)
    {
      this.width, this.height, this.channels := width, height, channels;
      data := new Byte[|bytes|](k requires 0 <= k < |bytes| => bytes[k]);
      new;
      assert data[..] == bytes;
      Refresh();
    }

    method ZeroedLike(w: nat, h: nat) returns (r: Result<Raster, RasterError>)
      requires Valid()
      ensures r.Failure? <==> w * h * channels >= 0x1_0000_0000_0000_0000
      ensures r.Failure? ==> r.error == SizeOverflow
      ensures r.Success? ==>
        && r.value.Valid() && fresh(r.value) && fresh(r.value.data)
        && (r.value.width, r.value.height, r.value.channels) == (w, h, channels)
        && forall k :: 0 <= k < r.value.data.Length ==> r.value.data[k] == 0
    {
      if w * h * channels > USIZE_MAX {
        return Failure(SizeOverflow);
      }
      var blank := new Raster.Zeroed(w, h, channels);
      return Success(blank);
    }

    // ----- the two ways bytes move -----

    // row.swap(a + byte, b + byte) for every byte of a pixel
    method SwapBytes(a: nat, b: nat)
      requires a + channels <= b && b + channels <= data.Length
      modifies data
      ensures SwappedBytes(old(data[..]), data[..], a, b, channels)
    {
      for byte := 0 to channels
        invariant forall k {:trigger data[k]} :: 0 <= k < data.Length ==>
          data[k] == old(if a <= k < a + byte then data[k - a + b]
                         else if b <= k < b + byte then data[k - b + a] else data[k])
      {
        data[a + byte], data[b + byte] := data[b + byte], data[a + byte];
      }
    }

    method SwapPixels(i: nat, j: nat)
      requires Packed() && i < j < width * height
      modifies data
      ensures SwappedAt(old(data[..]), data[..], width * height, channels, i, j)
    {
      SlotsDisjoint(i, j, channels);
      SlotsDisjoint(j, width * height, channels);
      SlotsDisjoint(i, width * height, channels);
      ghost var was := data[..];
      SwapBytes(i * channels, j * channels);
      SwappedPixels(was, data[..], width * height, channels, i, j);
    }

    // copy_from_slice
    method CopyBytes(src: array<Byte>, from: nat, to: nat, n: nat)
      requires src != data && from + n <= src.Length && to + n <= data.Length
      modifies data
      ensures CopiedBytes(old(data[..]), data[..], src[..], from, to, n)
    {
      forall k | to <= k < to + n {
        data[k] := src[from + (k - to)];
      }
    }

    // ----- mirror -----

    // Left to right, in place. A raster without columns would make the last
    // column's index negative.
    method Mirror()
      requires Valid() && width > 0
      modifies data, this`pic
      ensures Valid() && pic == Mirrored(old(pic))
    {
      ghost var was := pic;
      for y := 0 to height
        invariant Valid() && MirroredRows(pic, was, y)
      {
        ghost var mid := pic;
        MirrorRow(y);
        MirroredNext(was, mid, pic, y);
      }
      SamePicture(pic, Mirrored(was));
    }

    method MirrorRow(y: nat)
      requires Valid() && y < height && width > 0
      modifies data, this`pic
      ensures Valid() && MirroredOutside(pic, old(pic), y, 0, -1)
    {
      ghost var was := pic;
      var left, right := 0, width - 1;
      while left < right
        invariant Valid() && left + right == width - 1 && left <= right + 1
        invariant MirroredOutside(pic, was, y, left, right)
        decreases right
      {
        ghost var mid := pic;
        SwapColumns(y, left, right);
        MirrorStep(was, mid, pic, y, left, right);
        left := left + 1;
        right := right - 1;
      }
      MirroredThrough(pic, was, y, left, right);
    }

    // Two pixels of one row trade places.
    method SwapColumns(y: nat, left: nat, right: nat)
      requires Valid() && y < height && left < right < width
      modifies data, this`pic
      ensures Valid() && TradedColumns(pic, old(pic), y, left, right)
    {
      ghost var was := data[..];
      PicIsUnpacked();
      CellInGrid(right, y, width, height);
      SwapPixels(y * width + left, y * width + right);
      SwappedColumns(was, data[..], width, height, channels, y, left, right);
      Refresh();
    }

    // ----- turns -----

    // A half turn, in place: the pixels in reverse, the middle one staying.
    method Rotate180()
      requires Valid()
      modifies data, this`pic
      ensures Valid() && pic == HalfTurned(old(pic))
    {
      PicIsUnpacked();
      ghost var was := data[..];
      ReversePixels();
      ReversedIsHalfTurned(was, data[..], width, height, channels);
      Refresh();
    }

    method ReversePixels()
      requires Packed()
      modifies data
      ensures ReversedSlots(old(data[..]), data[..], width * height, channels)
    {
      ghost var was, n := data[..], width * height;
      ghost var from: seq<nat> := seq(n, q => q);
      PixelCount();
      var pixels := data.Length / channels;
      for i := 0 to pixels / 2
        invariant Rearranged(was, data[..], n, channels, from)
        invariant forall q :: 0 <= q < n ==> from[q] == if i <= q < n - i then q else n - 1 - q
      {
        var j := pixels - 1 - i;
        ghost var mid := data[..];
        SwapPixels(i, j);
        RearrangedSwap(was, mid, data[..], n, channels, from, i, j);
        from := from[i := from[j]][j := from[i]];
      }
      RearrangedReverse(was, data[..], n, channels, from);
    }

    lemma PixelCount()
      requires Packed()
      ensures data.Length / channels == width * height
    {
      UniqueRemainder(width * height, 0, channels);
    }

    // A quarter turn clockwise, into a second buffer.
    method Rotated90() returns (r: Raster)
      requires Valid()
      ensures r.Valid() && fresh(r) && fresh(r.data)
      ensures r.pic == QuarterTurned(pic)
      ensures (r.width, r.height, r.channels) == (height, width, channels)
    {
      r := new Raster.Zeroed(height, width, channels);
      for y := 0 to height
        invariant r.Valid() && r.data != data
        invariant forall v, x {:trigger r.pic.rows[v][x]} :: 0 <= v < width && 0 <= x < height ==>
          x > height - 1 - y ==> r.pic.rows[v][x] == pic.rows[height - 1 - x][v]
      {
        for x := 0 to width
          invariant r.Valid() && r.data != data
          invariant forall v, u {:trigger r.pic.rows[v][u]} :: 0 <= v < width && 0 <= u < height ==>
            u > height - 1 - y || (u == height - 1 - y && v < x) ==> r.pic.rows[v][u] == pic.rows[height - 1 - u][v]
        {
          r.CopyRun(this, x, y, height - 1 - y, x, 1);
        }
      }
      SamePicture(r.pic, QuarterTurned(pic));
    }

    // Clockwise quarter turns, a count of them taken modulo four. Even turns
    // work on this raster's own buffer.
    method RotateQuarters(quarters: nat) returns (r: Raster)
      requires Valid()
      modifies data, this`pic
      ensures r.Valid() && r.pic == Turned(old(pic), quarters)
      ensures r == this || (fresh(r) && fresh(r.data))
    {
      TurnsOfQuarters(pic, quarters);
      match quarters % 4
      case 1 =>
        r := Rotated90();
      case 2 =>
        Rotate180();
        r := this;
      case 3 =>
        r := Rotated90();
        r.Rotate180();
      case _ =>
        r := this;
    }

    // ----- copying rectangles -----

    // A run of pixels of one row copied from one row of `src`.
    method CopyRun(src: Raster, srcX: nat, srcY: nat, x0: nat, y0: nat, n: nat)
      requires Valid() && src.Valid() && src.channels == channels && src.data != data
      requires srcX + n <= src.width && srcY < src.height && x0 + n <= width && y0 < height
      modifies data, this`pic
      ensures Valid()
      ensures forall y, x {:trigger pic.rows[y][x]} :: 0 <= y < height && 0 <= x < width ==>
        pic.rows[y][x] == if y == y0 && x0 <= x < x0 + n then old(src.pic).rows[srcY][srcX + (x - x0)]
                          else old(pic).rows[y][x]
    {
      RunFits(srcX, srcY, n, src.width, src.height, channels);
      RunFits(x0, y0, n, width, height, channels);
      PicIsUnpacked();
      src.PicIsUnpacked();
      ghost var was, source := data[..], src.data[..];
      CopyBytes(src.data, (srcY * src.width + srcX) * channels, (y0 * width + x0) * channels, n * channels);
      CopiedRun(was, data[..], source, width, height, src.width, src.height, channels, srcX, srcY, x0, y0, n);
      Refresh();
    }

    // Copy `rect` of `src` into this raster at (dstX, dstY).
    method Blit(src: Raster, rect: CopyRect, dstX: nat, dstY: nat) returns (r: Result<(), RasterError>)
      requires Valid() && src.Valid() && src.data != data
      modifies data, this`pic
      ensures Valid()
      ensures r == BlitOutcome(src, rect, dstX, dstY)
      ensures r.Failure? ==> data[..] == old(data[..])
      ensures r.Success? ==>
        IsPaste(pic, old(pic), old(src.pic), rect.srcX, rect.srcY, rect.width, rect.height, dstX, dstY)
    {
      if channels != src.channels {
        return Failure(LayoutMismatch);
      }
      if rect.srcX + rect.width > src.width || rect.srcY + rect.height > src.height
         || dstX + rect.width > width || dstY + rect.height > height {
        return Failure(OutOfBounds);
      }
      BlitRows(src, rect, dstX, dstY);
      return Success(());
    }

    method BlitRows(src: Raster, rect: CopyRect, dstX: nat, dstY: nat)
      requires Valid() && src.Valid() && src.data != data && BlitOutcome(src, rect, dstX, dstY).Success?
      modifies data, this`pic
      ensures Valid()
      ensures IsPaste(pic, old(pic), old(src.pic), rect.srcX, rect.srcY, rect.width, rect.height, dstX, dstY)
    {
      ghost var was, from := pic, src.pic;
      for row := 0 to rect.height
        invariant Valid() && src.Valid() && src.pic == from
        invariant IsPaste(pic, was, from, rect.srcX, rect.srcY, rect.width, row, dstX, dstY)
      {
        CopyRun(src, rect.srcX, rect.srcY + row, dstX, dstY + row, rect.width);
      }
    }

    ghost function BlitOutcome(src: Raster, rect: CopyRect, dstX: nat, dstY: nat): Result<(), RasterError> {
      if channels != src.channels then Failure(LayoutMismatch)
      else if rect.srcX + rect.width > src.width || rect.srcY + rect.height > src.height
              || dstX + rect.width > width || dstY + rect.height > height then Failure(OutOfBounds)
      else Success(())
    }

    // ----- colour -----

    // chunks_exact(channels), each mapped, collected into a new buffer
    method MapPixels(f: Pixel -> Pixel, out: nat) returns (r: Raster)
      requires Valid() && 1 <= out <= 4 && Yields(f, channels, out)
      ensures r.Valid() && fresh(r) && fresh(r.data)
      ensures (r.width, r.height, r.channels) == (width, height, out)
      ensures r.pic == Mapped(pic, f, out)
    {
      var bytes: seq<Byte> := [];
      var n := width * height;
      for q := 0 to n
        invariant MappedSlots(data[..], bytes, n, channels, out, f, q)
      {
        SlotsDisjoint(q, n, channels);
        ghost var before := bytes;
        bytes := bytes + f(data[q * channels..q * channels + channels]);
        MappedNext(data[..], before, bytes, n, channels, out, f, q);
      }
      r := new Raster.FromBytes(width, height, out, bytes);
      PicIsUnpacked();
      MappedPicture(data[..], bytes, width, height, channels, out, f);
    }

    // To luma; gray input is handed back as it is.
    method IntoGray() returns (r: Raster)
      requires Valid()
      ensures r.Valid() && r.pic == Mapped(pic, GrayPixel, GrayChannels(channels))
      ensures r == this || (fresh(r) && fresh(r.data))
      ensures r.channels == GrayChannels(channels) <= 2
    {
      if channels == 3 || channels == 4 {
        r := MapPixels(GrayPixel, GrayChannels(channels));
      } else {
        r := this;
        SamePicture(pic, Mapped(pic, GrayPixel, GrayChannels(channels)));
      }
    }

    // Gray first, then every level thrown to black or white in place.
    method IntoBitonal() returns (r: Raster)
      requires Valid()
      modifies data, this`pic
      ensures r.Valid() && r.pic == Mapped(old(pic), BitonalPixel, GrayChannels(channels))
      ensures r == this || (fresh(r) && fresh(r.data))
    {
      ghost var was := pic;
      r := IntoGray();
      r.ThresholdLevels();
      SamePicture(r.pic, Mapped(was, BitonalPixel, GrayChannels(channels)));
    }

    method ThresholdLevels()
      requires Valid()
      modifies data, this`pic
      ensures Valid() && pic == Mapped(old(pic), Bilevel, channels)
    {
      ghost var was, n := data[..], width * height;
      PicIsUnpacked();
      for q := 0 to width * height
        invariant LevelledSlots(was, data[..], n, channels, q)
      {
        SlotsDisjoint(q, n, channels);
        ghost var before := data[..];
        data[q * channels] := Threshold(data[q * channels]);
        LevelledNext(was, before, data[..], n, channels, q);
      }
      LevelledPicture(was, data[..], width, height, channels);
      Refresh();
    }

    // Alpha composited over white; opaque input is handed back as it is.
    method FlattenOverWhite() returns (r: Raster)
      requires Valid()
      ensures r.Valid() && r.pic == Mapped(pic, FlatPixel, FlatChannels(channels))
      ensures r == this || (fresh(r) && fresh(r.data))
    {
      if channels == 2 || channels == 4 {
        r := MapPixels(FlatPixel, FlatChannels(channels));
      } else {
        r := this;
        SamePicture(pic, Mapped(pic, FlatPixel, FlatChannels(channels)));
      }
    }
  }
}
