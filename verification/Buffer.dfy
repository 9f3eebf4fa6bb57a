// Packed pixel buffers as byte strings: where a pixel lies, and what swapping
// or copying byte ranges does to the picture.
module Buffers {
  import opened Arithmetic
  import opened Images
  import opened Colors

  // Item q of a buffer of n items of c bytes.
  function Slot(d: seq<Byte>, n: nat, c: nat, q: nat): (p: Pixel)
    requires |d| == n * c && q < n
    ensures |p| == c
  {
    SlotsDisjoint(q, n, c);
    d[q * c..q * c + c]
  }

  // Pixel (x, y) of a packed w-by-h picture.
  function Cell(d: seq<Byte>, w: nat, h: nat, c: nat, x: nat, y: nat): (p: Pixel)
    requires |d| == w * h * c && x < w && y < h
    ensures |p| == c
  {
    CellInGrid(x, y, w, h);
    Slot(d, w * h, c, y * w + x)
  }

  ghost function Unpacked(d: seq<Byte>, w: nat, h: nat, c: nat): (i: Picture)
    requires |d| == w * h * c
    ensures i.width == w && i.height == h && i.channels == c
    ensures forall y, x {:trigger i.rows[y][x]} :: 0 <= y < h && 0 <= x < w ==> i.rows[y][x] == Cell(d, w, h, c, x, y)
  {
    Tabulate(w, h, c, (x: nat, y: nat) requires x < w && y < h => Cell(d, w, h, c, x, y))
  }

  // A picture has one packing: equal pictures are equal buffers.
  lemma UnpackingIsInjective(d: seq<Byte>, e: seq<Byte>, w: nat, h: nat, c: nat)
    requires |d| == |e| == w * h * c && Unpacked(d, w, h, c) == Unpacked(e, w, h, c)
    ensures d == e
  {
    forall k | 0 <= k < |d|
      ensures d[k] == e[k]
    {
      var (x, y, b) := ByteAddress(k, w, h, c);
      ByteOfCell(d, w, h, c, x, y, b);
      ByteOfCell(e, w, h, c, x, y, b);
      assert Unpacked(d, w, h, c).rows[y][x] == Unpacked(e, w, h, c).rows[y][x];
    }
  }

  lemma ByteOfCell(d: seq<Byte>, w: nat, h: nat, c: nat, x: nat, y: nat, b: nat)
    requires |d| == w * h * c && x < w && y < h && b < c
    ensures (y * w + x) * c + b < |d| && Cell(d, w, h, c, x, y)[b] == d[(y * w + x) * c + b]
  {
    CellInGrid(x, y, w, h);
    SlotsDisjoint(y * w + x, w * h, c);
  }

  // The packing of a picture, byte by byte.
  function Packing(p: Picture): (d: seq<Byte>)
    ensures |d| == p.width * p.height * p.channels
  {
    seq(p.width * p.height * p.channels, k requires 0 <= k < p.width * p.height * p.channels =>
      var a := ByteAddress(k, p.width, p.height, p.channels); p.rows[a.1][a.0][a.2])
  }

  lemma AddressUnique(x: nat, y: nat, b: nat, w: nat, h: nat, c: nat)
    requires x < w && y < h && b < c
    ensures var k := (y * w + x) * c + b;
      0 <= k < w * h * c && ByteAddress(k, w, h, c) == (x, y, b)
  {
    CellInGrid(x, y, w, h);
    SlotsDisjoint(y * w + x, w * h, c);
    var a := ByteAddress((y * w + x) * c + b, w, h, c);
    CellUnique(b, y * w + x, a.2, a.1 * w + a.0, c);
    CellUnique(x, y, a.0, a.1, w);
  }

  // Packing and unpacking are inverse.
  lemma UnpackPacking(p: Picture)
    ensures Unpacked(Packing(p), p.width, p.height, p.channels) == p
  {
    var d, w, h, c := Packing(p), p.width, p.height, p.channels;
    forall y, x | 0 <= y < h && 0 <= x < w
      ensures Cell(d, w, h, c, x, y) == p.rows[y][x]
    {
      PackedCell(p, x, y);
    }
    SamePicture(Unpacked(d, w, h, c), p);
  }

  lemma PackedCell(p: Picture, x: nat, y: nat)
    requires x < p.width && y < p.height
    ensures Cell(Packing(p), p.width, p.height, p.channels, x, y) == p.rows[y][x]
  {
    var s, t := Cell(Packing(p), p.width, p.height, p.channels, x, y), p.rows[y][x];
    assert |s| == |t| == p.channels;
    forall b | 0 <= b < p.channels
      ensures s[b] == t[b]
    {
      PackedByte(p, x, y, b);
    }
  }

  lemma PackedByte(p: Picture, x: nat, y: nat, b: nat)
    requires x < p.width && y < p.height && b < p.channels
    ensures Cell(Packing(p), p.width, p.height, p.channels, x, y)[b] == p.rows[y][x][b]
  {
    var d, k := Packing(p), (y * p.width + x) * p.channels + b;
    assert 0 <= k < |d| && d[k] == p.rows[y][x][b] by {
      AddressUnique(x, y, b, p.width, p.height, p.channels);
      PackingAt(p, k, x, y, b);
    }
    ByteOfCell(d, p.width, p.height, p.channels, x, y, b);
  }

  lemma PackingAt(p: Picture, k: nat, x: nat, y: nat, b: nat)
    requires k < p.width * p.height * p.channels && ByteAddress(k, p.width, p.height, p.channels) == (x, y, b)
    ensures Packing(p)[k] == p.rows[y][x][b]
  {
  }

  // Column, row and byte of a buffer position.
  function ByteAddress(k: nat, w: nat, h: nat, c: nat): (a: (nat, nat, nat))
    requires k < w * h * c
    ensures a.0 < w && a.1 < h && a.2 < c && k == (a.1 * w + a.0) * c + a.2
  {
    assert w > 0 && c > 0;
    var q, b := k / c, k % c;
    QuotientBelow(k, w * h, c);
    QuotientBelow(q, h, w);
    (q % w, q / w, b)
  }

  // ----- swapping -----

  // The first `n` bytes of two slots at `a` and `b` have traded places.
  ghost predicate SwappedBytes(was: seq<Byte>, now: seq<Byte>, a: nat, b: nat, n: nat) {
    && |was| == |now| && a + n <= |was| && b + n <= |was|
    && forall k {:trigger now[k]} :: 0 <= k < |now| ==>
      now[k] == if a <= k < a + n then was[k - a + b] else if b <= k < b + n then was[k - b + a] else was[k]
  }

  lemma SwappedSlots(was: seq<Byte>, now: seq<Byte>, n: nat, c: nat, i: nat, j: nat, q: nat)
    requires |was| == |now| == n * c && c > 0 && i < j < n && q < n
    requires SwappedBytes(was, now, i * c, j * c, c)
    ensures Slot(now, n, c, q) == Slot(was, n, c, if q == i then j else if q == j then i else q)
  {
    SlotsDisjoint(q, n, c);
    SlotApart(q, i, c);
    SlotApart(q, j, c);
    SlotsDisjoint(i, j, c);
    SwappedSlice(was, now, i * c, j * c, c, q * c);
  }

  lemma SwappedSlice(was: seq<Byte>, now: seq<Byte>, a: nat, b: nat, c: nat, at: nat)
    requires SwappedBytes(was, now, a, b, c) && a + c <= b && at + c <= |was|
    requires at == a || at + c <= a || a + c <= at
    requires at == b || at + c <= b || b + c <= at
    ensures c > 0 ==> now[at..at + c] == var from := if at == a then b else if at == b then a else at; was[from..from + c]
  {
    if c > 0 {
      SameSlice(now, was, at, if at == a then b else if at == b then a else at, c);
    }
  }

  lemma SameSlice(s: seq<Byte>, t: seq<Byte>, a: nat, b: nat, n: nat)
    requires a + n <= |s| && b + n <= |t|
    requires forall k {:trigger s[k]} :: a <= k < a + n ==> s[k] == t[k - a + b]
    ensures s[a..a + n] == t[b..b + n]
  {
    var u, v := s[a..a + n], t[b..b + n];
    forall k | 0 <= k < n
      ensures u[k] == v[k]
    {
      assert u[k] == s[a + k] && s[a + k] == t[a + k - a + b];
    }
  }

  // Pixels i and j of the buffer have traded places.
  ghost predicate SwappedAt(was: seq<Byte>, now: seq<Byte>, n: nat, c: nat, i: nat, j: nat) {
    && |was| == |now| == n * c && i < n && j < n
    && forall q {:trigger Slot(now, n, c, q)} :: 0 <= q < n ==>
      Slot(now, n, c, q) == Slot(was, n, c, if q == i then j else if q == j then i else q)
  }

  lemma SwappedPixels(was: seq<Byte>, now: seq<Byte>, n: nat, c: nat, i: nat, j: nat)
    requires |was| == |now| == n * c && c > 0 && i < j < n
    requires SwappedBytes(was, now, i * c, j * c, c)
    ensures SwappedAt(was, now, n, c, i, j)
  {
    forall q | 0 <= q < n
      ensures Slot(now, n, c, q) == Slot(was, n, c, if q == i then j else if q == j then i else q)
    {
      SwappedSlots(was, now, n, c, i, j, q);
    }
  }

  lemma SwappedColumns(was: seq<Byte>, now: seq<Byte>, w: nat, h: nat, c: nat, y: nat, left: nat, right: nat)
    requires |was| == |now| == w * h * c && y < h && left < right < w
    requires SwappedAt(was, now, w * h, c, y * w + left, y * w + right)
    ensures TradedColumns(Unpacked(now, w, h, c), Unpacked(was, w, h, c), y, left, right)
  {
    forall v, x | 0 <= v < h && 0 <= x < w
      ensures Cell(now, w, h, c, x, v) == Cell(was, w, h, c, if v == y then Traded(x, left, right) else x, v)
    {
      SwappedCell(was, now, w, h, c, y, left, right, x, v);
    }
  }

  lemma SwappedCell(was: seq<Byte>, now: seq<Byte>, w: nat, h: nat, c: nat, y: nat, left: nat, right: nat, x: nat, v: nat)
    requires |was| == |now| == w * h * c && y < h && left < right < w && x < w && v < h
    requires SwappedAt(was, now, w * h, c, y * w + left, y * w + right)
    ensures Cell(now, w, h, c, x, v) == Cell(was, w, h, c, if v == y then Traded(x, left, right) else x, v)
  {
    CellInGrid(x, v, w, h);
    TradedCell(x, v, y, left, right, w);
  }

  lemma TradedCell(x: nat, v: nat, y: nat, left: nat, right: nat, w: nat)
    requires x < w && left < right < w
    ensures var q, i, j := v * w + x, y * w + left, y * w + right;
      (if q == i then j else if q == j then i else q) == v * w + if v == y then Traded(x, left, right) else x
  {
    CellUnique(x, v, left, y, w);
    CellUnique(x, v, right, y, w);
  }

  // Every slot of `now` is the slot of `was` that `from` names.
  ghost predicate Rearranged(was: seq<Byte>, now: seq<Byte>, n: nat, c: nat, from: seq<nat>) {
    && |was| == |now| == n * c && |from| == n
    && forall q {:trigger Slot(now, n, c, q)} :: 0 <= q < n ==> from[q] < n && Slot(now, n, c, q) == Slot(was, n, c, from[q])
  }

  lemma RearrangedSwap(was: seq<Byte>, mid: seq<Byte>, now: seq<Byte>, n: nat, c: nat, from: seq<nat>, i: nat, j: nat)
    requires Rearranged(was, mid, n, c, from) && SwappedAt(mid, now, n, c, i, j)
    ensures Rearranged(was, now, n, c, from[i := from[j]][j := from[i]])
  {
    var next := from[i := from[j]][j := from[i]];
    forall q | 0 <= q < n
      ensures next[q] < n && Slot(now, n, c, q) == Slot(was, n, c, next[q])
    {
      var p := if q == i then j else if q == j then i else q;
      assert next[q] == from[p];
      assert Slot(now, n, c, q) == Slot(mid, n, c, p);
    }
  }

  lemma RearrangedReverse(was: seq<Byte>, now: seq<Byte>, n: nat, c: nat, from: seq<nat>)
    requires Rearranged(was, now, n, c, from) && forall q :: 0 <= q < n ==> from[q] == n - 1 - q
    ensures ReversedSlots(was, now, n, c)
  {
    forall q | 0 <= q < n
      ensures Slot(now, n, c, q) == Slot(was, n, c, n - 1 - q)
    {
      assert from[q] == n - 1 - q;
    }
  }

  ghost predicate ReversedSlots(was: seq<Byte>, now: seq<Byte>, n: nat, c: nat) {
    && |was| == |now| == n * c
    && forall q {:trigger Slot(now, n, c, q)} :: 0 <= q < n ==> Slot(now, n, c, q) == Slot(was, n, c, n - 1 - q)
  }

  // Pixels in reverse are the picture turned by half.
  lemma ReversedIsHalfTurned(was: seq<Byte>, now: seq<Byte>, w: nat, h: nat, c: nat)
    requires |was| == |now| == w * h * c
    requires ReversedSlots(was, now, w * h, c)
    ensures Unpacked(now, w, h, c) == HalfTurned(Unpacked(was, w, h, c))
  {
    forall y, x | 0 <= y < h && 0 <= x < w
      ensures Cell(now, w, h, c, x, y) == Cell(was, w, h, c, w - 1 - x, h - 1 - y)
    {
      ReversedCell(was, now, w, h, c, x, y);
    }
    SamePicture(Unpacked(now, w, h, c), HalfTurned(Unpacked(was, w, h, c)));
  }

  lemma ReversedCell(was: seq<Byte>, now: seq<Byte>, w: nat, h: nat, c: nat, x: nat, y: nat)
    requires |was| == |now| == w * h * c && x < w && y < h
    requires ReversedSlots(was, now, w * h, c)
    ensures Cell(now, w, h, c, x, y) == Cell(was, w, h, c, w - 1 - x, h - 1 - y)
  {
    CellInGrid(x, y, w, h);
    OppositeCell(x, y, w, h);
  }

  lemma OppositeCell(x: nat, y: nat, w: nat, h: nat)
    requires x < w && y < h
    ensures (h - 1 - y) * w + (w - 1 - x) == w * h - 1 - (y * w + x)
  {
  }

  // ----- copying -----

  ghost predicate CopiedBytes(was: seq<Byte>, now: seq<Byte>, src: seq<Byte>, from: int, to: int, n: int) {
    && |was| == |now| && 0 <= from && 0 <= to && 0 <= n && from + n <= |src| && to + n <= |now|
    && forall k {:trigger now[k]} :: 0 <= k < |now| ==>
      now[k] == if to <= k < to + n then src[from + (k - to)] else was[k]
  }

  lemma CopiedSlice(was: seq<Byte>, now: seq<Byte>, src: seq<Byte>, from: nat, to: nat, n: nat, at: nat, c: nat)
    requires CopiedBytes(was, now, src, from, to, n) && at + c <= |now|
    ensures at + c <= to || to + n <= at ==> now[at..at + c] == was[at..at + c]
    ensures to <= at && at + c <= to + n ==>
      now[at..at + c] == src[from + (at - to)..from + (at - to) + c]
  {
    if to <= at && at + c <= to + n {
      SameSlice(now, src, at, from + (at - to), c);
    }
    if at + c <= to || to + n <= at {
      SameSlice(now, was, at, at, c);
    }
  }

  // Slot q of a buffer into which slots from.. of `src` were copied at to...
  lemma CopiedSlots(was: seq<Byte>, now: seq<Byte>, src: seq<Byte>, size: nat, srcSize: nat, c: nat,
                    from: nat, to: nat, n: nat, q: nat)
    requires |was| == |now| == size * c && |src| == srcSize * c
    requires from + n <= srcSize && to + n <= size && q < size
    requires CopiedBytes(was, now, src, from * c, to * c, n * c)
    ensures to <= q < to + n ==> Slot(now, size, c, q) == Slot(src, srcSize, c, from + (q - to))
    ensures q < to || to + n <= q ==> Slot(now, size, c, q) == Slot(was, size, c, q)
  {
    SlotsDisjoint(q, size, c);
    CopiedSlice(was, now, src, from * c, to * c, n * c, q * c, c);
    if to <= q < to + n {
      SlotInRun(q, to, n, from, c);
    } else {
      SlotOutsideRun(q, to, n, c);
    }
  }

  lemma SlotOutsideRun(q: nat, to: nat, n: nat, c: nat)
    requires q < to || to + n <= q
    ensures q * c + c <= to * c || to * c + n * c <= q * c
  {
    if q < to {
      SlotsDisjoint(q, to, c);
    } else {
      RunInside(to, n, q, c);
    }
  }

  lemma SlotInRun(q: nat, to: nat, n: nat, from: nat, c: nat)
    requires to <= q < to + n
    ensures to * c <= q * c && q * c + c <= to * c + n * c
    ensures (from + (q - to)) * c == from * c + (q * c - to * c)
  {
    var d := q - to;
    SlotsDisjoint(d, n, c);
    assert q * c == to * c + d * c && (from + d) * c == from * c + d * c;
  }

  // Pixel by pixel, what copying a run of one row into another row does.
  lemma CopiedRun(was: seq<Byte>, now: seq<Byte>, src: seq<Byte>, w: nat, h: nat, srcW: nat, srcH: nat, c: nat,
                  srcX: nat, srcY: nat, x0: nat, y0: nat, n: nat)
    requires |was| == |now| == w * h * c && |src| == srcW * srcH * c
    requires srcX + n <= srcW && srcY < srcH && x0 + n <= w && y0 < h
    requires CopiedBytes(was, now, src, (srcY * srcW + srcX) * c, (y0 * w + x0) * c, n * c)
    ensures var p, q, r := Unpacked(was, w, h, c), Unpacked(now, w, h, c), Unpacked(src, srcW, srcH, c);
      forall y, x {:trigger q.rows[y][x]} :: 0 <= y < h && 0 <= x < w ==>
        q.rows[y][x] == if y == y0 && x0 <= x < x0 + n then r.rows[srcY][srcX + (x - x0)] else p.rows[y][x]
  {
    forall y, x | 0 <= y < h && 0 <= x < w
      ensures Cell(now, w, h, c, x, y)
           == if y == y0 && x0 <= x < x0 + n then Cell(src, srcW, srcH, c, srcX + (x - x0), srcY)
              else Cell(was, w, h, c, x, y)
    {
      CopiedCell(was, now, src, w, h, srcW, srcH, c, srcX, srcY, x0, y0, n, x, y);
    }
  }

  lemma CopiedCell(was: seq<Byte>, now: seq<Byte>, src: seq<Byte>, w: nat, h: nat, srcW: nat, srcH: nat, c: nat,
                   srcX: nat, srcY: nat, x0: nat, y0: nat, n: nat, x: nat, y: nat)
    requires |was| == |now| == w * h * c && |src| == srcW * srcH * c && x < w && y < h
    requires srcX + n <= srcW && srcY < srcH && x0 + n <= w && y0 < h
    requires CopiedBytes(was, now, src, (srcY * srcW + srcX) * c, (y0 * w + x0) * c, n * c)
    ensures Cell(now, w, h, c, x, y)
         == if y == y0 && x0 <= x < x0 + n then Cell(src, srcW, srcH, c, srcX + (x - x0), srcY)
            else Cell(was, w, h, c, x, y)
  {
    CellInGrid(x, y, w, h);
    var q, from, to := y * w + x, srcY * srcW + srcX, y0 * w + x0;
    assert 0 <= from && from + n <= srcW * srcH by { RowInGrid(srcY, srcW, srcH); }
    assert 0 <= to && to + n <= w * h by { RowInGrid(y0, w, h); }
    assert to <= q < to + n <==> y == y0 && x0 <= x < x0 + n by { CellInRun(x, y, x0, y0, n, w); }
    CopiedSlots(was, now, src, w * h, srcW * srcH, c, from, to, n, q);
  }

  lemma CellInRun(x: nat, y: nat, x0: nat, y0: nat, n: nat, w: nat)
    requires x < w && x0 + n <= w
    ensures y0 * w + x0 <= y * w + x < y0 * w + x0 + n <==> y == y0 && x0 <= x < x0 + n
  {
    SlotApart(y, y0, w);
  }

  // ----- mapping -----

  // `bytes` holds f of the first k slots of d, out bytes each.
  ghost predicate MappedSlots(d: seq<Byte>, bytes: seq<Byte>, n: nat, c: nat, out: nat, f: Pixel -> Pixel, k: nat) {
    && |d| == n * c && |bytes| == k * out && k <= n
    && forall q {:trigger Slot(bytes, k, out, q)} :: 0 <= q < k ==> Slot(bytes, k, out, q) == f(Slot(d, n, c, q))
  }

  lemma MappedNext(d: seq<Byte>, before: seq<Byte>, bytes: seq<Byte>, n: nat, c: nat, out: nat, f: Pixel -> Pixel, k: nat)
    requires k < n && MappedSlots(d, before, n, c, out, f, k) && Yields(f, c, out)
    requires bytes == before + f(Slot(d, n, c, k))
    ensures MappedSlots(d, bytes, n, c, out, f, k + 1)
  {
    forall q | 0 <= q < k + 1
      ensures Slot(bytes, k + 1, out, q) == f(Slot(d, n, c, q))
    {
      if q < k {
        SlotsDisjoint(q, k, out);
        assert Slot(bytes, k + 1, out, q) == Slot(before, k, out, q);
      }
    }
  }

  lemma MappedPicture(d: seq<Byte>, bytes: seq<Byte>, w: nat, h: nat, c: nat, out: nat, f: Pixel -> Pixel)
    requires MappedSlots(d, bytes, w * h, c, out, f, w * h) && Yields(f, c, out)
    ensures Unpacked(bytes, w, h, out) == Mapped(Unpacked(d, w, h, c), f, out)
  {
    forall y, x | 0 <= y < h && 0 <= x < w
      ensures Cell(bytes, w, h, out, x, y) == f(Cell(d, w, h, c, x, y))
    {
      MappedCell(d, bytes, w, h, c, out, f, x, y);
    }
    SamePicture(Unpacked(bytes, w, h, out), Mapped(Unpacked(d, w, h, c), f, out));
  }

  lemma MappedCell(d: seq<Byte>, bytes: seq<Byte>, w: nat, h: nat, c: nat, out: nat, f: Pixel -> Pixel, x: nat, y: nat)
    requires MappedSlots(d, bytes, w * h, c, out, f, w * h) && x < w && y < h
    ensures Cell(bytes, w, h, out, x, y) == f(Cell(d, w, h, c, x, y))
  {
    CellInGrid(x, y, w, h);
  }

  // The first k slots have had their first byte thresholded.
  ghost predicate LevelledSlots(was: seq<Byte>, now: seq<Byte>, n: nat, c: nat, k: nat) {
    && |was| == |now| == n * c
    && forall q {:trigger Slot(now, n, c, q)} :: 0 <= q < n ==>
      Slot(now, n, c, q) == if q < k then Bilevel(Slot(was, n, c, q)) else Slot(was, n, c, q)
  }

  lemma LevelledNext(was: seq<Byte>, before: seq<Byte>, now: seq<Byte>, n: nat, c: nat, k: nat)
    requires 0 < c && k < n && LevelledSlots(was, before, n, c, k) && k * c < |before|
    requires now == before[k * c := Threshold(before[k * c])]
    ensures LevelledSlots(was, now, n, c, k + 1)
  {
    forall q | 0 <= q < n
      ensures Slot(now, n, c, q) == if q < k + 1 then Bilevel(Slot(was, n, c, q)) else Slot(was, n, c, q)
    {
      SlotsDisjoint(q, n, c);
      SlotApart(q, k, c);
      if q == k {
        assert Slot(now, n, c, q) == Bilevel(Slot(before, n, c, q));
      } else {
        assert Slot(now, n, c, q) == Slot(before, n, c, q);
      }
    }
  }

  lemma LevelledPicture(was: seq<Byte>, now: seq<Byte>, w: nat, h: nat, c: nat)
    requires LevelledSlots(was, now, w * h, c, w * h)
    ensures Unpacked(now, w, h, c) == Mapped(Unpacked(was, w, h, c), Bilevel, c)
  {
    forall y, x | 0 <= y < h && 0 <= x < w
      ensures Cell(now, w, h, c, x, y) == Bilevel(Cell(was, w, h, c, x, y))
    {
      LevelledCell(was, now, w, h, c, x, y);
    }
    SamePicture(Unpacked(now, w, h, c), Mapped(Unpacked(was, w, h, c), Bilevel, c));
  }

  lemma LevelledCell(was: seq<Byte>, now: seq<Byte>, w: nat, h: nat, c: nat, x: nat, y: nat)
    requires LevelledSlots(was, now, w * h, c, w * h) && x < w && y < h
    ensures Cell(now, w, h, c, x, y) == Bilevel(Cell(was, w, h, c, x, y))
  {
    CellInGrid(x, y, w, h);
  }
}
