// Tile grids: which tile holds a pixel, and the arithmetic of decoding a
// rectangle tile by tile.
module Tiles {
  import opened Arithmetic

  // u32::div_ceil
  function DivCeil(n: nat, d: nat): (q: nat)
    requires d > 0
  {
    (n + d - 1) / d
  }

  // Where tile k of a row or column of tiles begins, and which tile holds p.
  function Edge(k: nat, tile: nat): nat {
    k * tile
  }

  function TileAt(p: nat, tile: nat): nat
    requires tile > 0
  {
    p / tile
  }

  lemma EdgeNext(k: nat, tile: nat)
    ensures Edge(k + 1, tile) == Edge(k, tile) + tile
  {
  }

  // Pixel p is inside the tile that holds it.
  lemma TileBrackets(p: nat, tile: nat)
    requires tile > 0
    ensures Edge(TileAt(p, tile), tile) <= p < Edge(TileAt(p, tile), tile) + tile
  {
    QuotientIff(p, tile, p / tile);
  }

  // The quotient is the one multiple count that brackets n.
  lemma QuotientIff(n: nat, d: nat, q: nat)
    requires d > 0
    ensures q == n / d <==> q * d <= n < q * d + d
  {
    if q * d <= n < q * d + d {
      UniqueRemainder(q, n - q * d, d);
    }
  }

  lemma QuotientMonotone(a: nat, b: nat, d: nat)
    requires d > 0 && a <= b
    ensures a / d <= b / d
  {
    QuotientIff(a, d, a / d);
    QuotientIff(b, d, b / d);
    CancelLess(a / d, b / d + 1, d);
  }

  lemma DivCeilIff(n: nat, d: nat, q: nat)
    requires d > 0
    ensures q == DivCeil(n, d) <==> q * d - d < n <= q * d
  {
    QuotientIff(n + d - 1, d, q);
  }

  // Tile number k of a row of tiles: a pixel below `size` lies in exactly one,
  // and that one exists.
  lemma TileOfPixel(p: nat, size: nat, tile: nat, k: nat)
    requires tile > 0 && p < size
    ensures k == TileAt(p, tile) <==>
      Edge(k, tile) <= p < Edge(k, tile) + Min(tile, Max(size, Edge(k, tile)) - Edge(k, tile))
    ensures TileAt(p, tile) < DivCeil(size, tile)
  {
    QuotientIff(p, tile, k);
    QuotientIff(p, tile, p / tile);
    DivCeilIff(size, tile, DivCeil(size, tile));
    CancelLess(p / tile, DivCeil(size, tile), tile);
  }
}
