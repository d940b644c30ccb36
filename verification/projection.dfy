/**
 * The integer tail of the latitude/longitude conversions: rounding a projected
 * map position to a pixel, and the chain pixel -> tile -> quadkey.
 *
 * The projection itself (clamping latitude and longitude, then the spherical
 * Mercator formulas with sine and logarithm) is floating-point trigonometry and
 * is not modelled: its results, the position across the map (0 at the left
 * edge, 1 at the right) and down the map (0 at the top, 1 at the bottom), are
 * the inputs here, as exact reals.
 */
module Projection {
  import opened GoInt
  import opened Clipping
  import opened TileSystem
  import opened QuadKey

  /** Go's `int(clip(v + 0.5, 0, size - 1))`: the scaled position v rounded to the
      nearest pixel (halves up) and clamped onto a map `size` pixels wide; the
      conversion to `int` truncates, which on the non-negative clamped value is
      the floor. */
  function RoundToPixel(v: real, size: int): (r: int)
    requires size >= 1
    ensures 0 <= r < size
    ensures 0.0 <= v + 0.5 <= (size - 1) as real ==> r as real - 0.5 <= v < r as real + 0.5
    ensures v + 0.5 < 0.0 ==> r == 0
    ensures v + 0.5 >= (size - 1) as real ==> r == size - 1
  {
    Clip(v + 0.5, 0.0, (size - 1) as real).Floor
  }

  /** The pixel a projected position falls on at a level of detail. */
  function PixelCoordinate(fraction: real, level: nat): (r: Int64)
    requires level <= MaxLevel
    ensures 0 <= r < MapSize(level)
    ensures var v := fraction * MapSize(level) as real;
      0.0 <= v + 0.5 <= (MapSize(level) - 1) as real ==> r as real - 0.5 <= v < r as real + 0.5
    ensures var v := fraction * MapSize(level) as real; v + 0.5 < 0.0 ==> r == 0
    ensures var v := fraction * MapSize(level) as real;
      v + 0.5 >= (MapSize(level) - 1) as real ==> r == MapSize(level) - 1
  {
    MapSizeInRange(level);
    RoundToPixel(fraction * MapSize(level) as real, MapSize(level))
  }

  /** The pixel of a projected map position at a level of detail: on each axis
      the scaled position rounded to the nearest pixel, clamped onto the map. */
  function ProjectedToPixelXY(x: real, y: real, level: nat): (p: PixelXY)
    requires level <= MaxLevel
    ensures 0 <= p.x < MapSize(level) && 0 <= p.y < MapSize(level)
    ensures var vx := x * MapSize(level) as real;
      0.0 <= vx + 0.5 <= (MapSize(level) - 1) as real ==> p.x as real - 0.5 <= vx < p.x as real + 0.5
    ensures var vy := y * MapSize(level) as real;
      0.0 <= vy + 0.5 <= (MapSize(level) - 1) as real ==> p.y as real - 0.5 <= vy < p.y as real + 0.5
    ensures var vx := x * MapSize(level) as real; vx + 0.5 < 0.0 ==> p.x == 0
    ensures var vx := x * MapSize(level) as real;
      vx + 0.5 >= (MapSize(level) - 1) as real ==> p.x == MapSize(level) - 1
    ensures var vy := y * MapSize(level) as real; vy + 0.5 < 0.0 ==> p.y == 0
    ensures var vy := y * MapSize(level) as real;
      vy + 0.5 >= (MapSize(level) - 1) as real ==> p.y == MapSize(level) - 1
  {
    PixelXY(PixelCoordinate(x, level), PixelCoordinate(y, level))
  }

  /** The quadkey of the tile holding a projected map position at a level: a
      key of one digit per level that decodes to the tile whose 256 x 256 pixels
      contain the position's pixel. */
  function ProjectedToQuadKey(x: real, y: real, level: nat): (key: string)
    requires level <= MaxLevel
    ensures |key| == level && ValidQuadKey(key)
    ensures var p := ProjectedToPixelXY(x, y, level);
      var d := QuadKeyToTileXY(key);
      && d.level == level
      && TileSize * d.tile.x <= p.x < TileSize * d.tile.x + TileSize
      && TileSize * d.tile.y <= p.y < TileSize * d.tile.y + TileSize
  {
    var p := ProjectedToPixelXY(x, y, level);
    var t := PixelXYToTileXY(p);
    PixelInMapTileInRange(p, level);
    QuadKeyRoundTrip(t.x, t.y, level);
    TileXYToQuadKey(t.x, t.y, level)
  }
}
