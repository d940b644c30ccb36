/**
 * The integer half of the Bing Maps tile system: the size of the square map
 * at a level of detail, and the conversions between pixel coordinates and the
 * coordinates of the 256 x 256-pixel tiles that cover the map.
 */
module TileSystem {
  import opened GoInt

  /** Edge length of a tile, in pixels. */
  const TileSize: int := 256
  /** The finest level of detail the tile system documents. */
  const MaxLevel: nat := 23

  /** A point on the map, in pixels from the upper-left corner. */
  datatype PixelXY = PixelXY(x: Int64, y: Int64)

  /** A tile, by column (x) and row (y) counted from the upper-left tile. */
  datatype TileXY = TileXY(x: Int64, y: Int64)

  /** Width and height of the map at a level of detail, in pixels: Go's
      `256 << level` on a 64-bit `uint`, so bits shifted past the width are lost. */
  function MapSize(level: nat): (r: nat)
    ensures r < TwoTo64
    ensures r % TileSize == 0
    ensures level <= 55 ==> r == TileSize * Pow2(level)
    ensures level >= 56 ==> r == 0
  {
    MapSizeFacts(level);
    (TileSize * Pow2(level)) % TwoTo64
  }

  lemma MapSizeFacts(level: nat)
    ensures level <= 55 ==> (TileSize * Pow2(level)) % TwoTo64 == TileSize * Pow2(level)
    ensures level >= 56 ==> (TileSize * Pow2(level)) % TwoTo64 == 0
    ensures (TileSize * Pow2(level)) % TwoTo64 % TileSize == 0
  {
    Pow2Constants();
    Pow2Add(8, level);
    var v := TileSize * Pow2(level);
    if level <= 55 {
      Pow2Monotone(level + 8, 63);
      DivModUnique(v, TwoTo64, 0, v);
      DivModUnique(v, TileSize, Pow2(level), 0);
    } else {
      Pow2Add(64, level - 56);
      DivModUnique(v, TwoTo64, Pow2(level - 56), 0);
    }
  }

  /** Up to the finest documented level the map is at least one tile and at
      most 2^31 pixels wide, so it fits the unsigned result without wrapping. */
  lemma MapSizeInRange(level: nat)
    requires level <= MaxLevel
    ensures TileSize <= MapSize(level) <= 0x8000_0000
  {
    Pow2Constants();
    Pow2Monotone(level, 23);
    Pow2Add(23, 8);
  }

  /** Each finer level doubles the map's width until the shift overflows. */
  lemma MapSizeDoubles(level: nat)
    requires level < 55
    ensures MapSize(level + 1) == 2 * MapSize(level)
  {
  }

  /** The map is Pow2(level) tiles wide. */
  lemma MapSizeInTiles(level: nat)
    requires level <= 55
    ensures MapSize(level) / TileSize == Pow2(level)
  {
    DivModUnique(MapSize(level), TileSize, Pow2(level), 0);
  }

  /** Go's `pixel / 256` on `int`: the tile whose span holds the pixel, with the
      quotient truncated toward zero (so pixels -255..-1 fall in tile 0). */
  function PixelXYToTileXY(p: PixelXY): (t: TileXY)
    ensures 0 <= p.x ==> 0 <= t.x && TileSize * t.x <= p.x < TileSize * t.x + TileSize
    ensures 0 <= p.y ==> 0 <= t.y && TileSize * t.y <= p.y < TileSize * t.y + TileSize
    ensures p.x < 0 ==> t.x <= 0 && TileSize * t.x - TileSize < p.x <= TileSize * t.x
    ensures p.y < 0 ==> t.y <= 0 && TileSize * t.y - TileSize < p.y <= TileSize * t.y
  {
    TileXY(TruncDiv(p.x, TileSize), TruncDiv(p.y, TileSize))
  }

  /** A tile coordinate whose corner pixel, 256 times larger, is still an `int`. */
  predicate PixelAddressable(t: int)
  {
    -0x80_0000_0000_0000 <= t < 0x80_0000_0000_0000
  }

  /** Go's `tile * 256` on `int`: the upper-left pixel of the tile, wrapping
      around for tiles too far out for their pixel to be an `int`. */
  function TileXYToPixelXY(t: TileXY): (p: PixelXY)
    ensures PixelAddressable(t.x) ==> p.x == TileSize * t.x
    ensures PixelAddressable(t.y) ==> p.y == TileSize * t.y
    ensures p.x % TileSize == 0 && p.y % TileSize == 0
    ensures (p.x - TileSize * t.x) % TwoTo64 == 0
    ensures (p.y - TileSize * t.y) % TwoTo64 == 0
  {
    WrapKeepsTileMultiple(t.x * TileSize);
    WrapKeepsTileMultiple(t.y * TileSize);
    PixelXY(Wrap64(t.x * TileSize), Wrap64(t.y * TileSize))
  }

  /** Wrap-around subtracts a multiple of 2^64, which keeps multiples of 256. */
  lemma WrapKeepsTileMultiple(v: int)
    requires v % TileSize == 0
    ensures Wrap64(v) % TileSize == 0
  {
    var r := Wrap64(v);
    var k := (v - r) / TwoTo64;
    assert v - r == k * TwoTo64;
    DivModUnique(v, TileSize, v / TileSize, 0);
    DivModUnique(r, TileSize, v / TileSize - k * 0x100_0000_0000_0000, 0);
  }

  /** Converting a tile to its corner pixel and back gives the tile, for tiles
      whose coordinates lie in [-2^55, 2^55). */
  lemma TileToPixelToTile(t: TileXY)
    requires PixelAddressable(t.x) && PixelAddressable(t.y)
    ensures PixelXYToTileXY(TileXYToPixelXY(t)) == t
  {
  }

  /** The bound above is tight: tile column 2^55 has corner pixel 2^63, which
      wraps to -2^63, and that converts back to column -2^55. */
  lemma TileToPixelWrapsAt2To55()
    ensures PixelXYToTileXY(TileXYToPixelXY(TileXY(0x80_0000_0000_0000, 0)))
         == TileXY(-0x80_0000_0000_0000, 0)
  {
    Pow2Constants();
  }

  /** Converting a pixel to its tile and back gives the upper-left pixel of the
      tile holding it. */
  lemma PixelToTileCorner(p: PixelXY)
    requires 0 <= p.x && 0 <= p.y
    ensures var c := TileXYToPixelXY(PixelXYToTileXY(p));
      c.x <= p.x < c.x + TileSize && c.y <= p.y < c.y + TileSize
  {
    var t := PixelXYToTileXY(p);
    assert PixelAddressable(t.x) && PixelAddressable(t.y);
  }

  /** Every pixel of the map lies in one of the level's Pow2(level) x Pow2(level) tiles. */
  lemma PixelInMapTileInRange(p: PixelXY, level: nat)
    requires level <= 55
    requires 0 <= p.x < MapSize(level) && 0 <= p.y < MapSize(level)
    ensures var t := PixelXYToTileXY(p);
      0 <= t.x < Pow2(level) && 0 <= t.y < Pow2(level)
  {
  }
}
