# Quadkeys: the integer and string half of the Bing Maps tile system

This Dafny project models the tile-addressing core of the Go package
`Quadkeys` (`Quadkeys.go`), which follows Microsoft's "Bing Maps Tile System".
At a level of detail `l` the world map is a square of `256 << l` pixels. It is
cut into 256 x 256-pixel tiles, and each tile is named by a *quadkey*: a string
of `l` digits `0`-`3`, coarsest level first. The digit for a level carries the
tile column's bit as 1 and the tile row's bit as 2.

The model covers:

- `clip`, the clamp behind every range-limited conversion (`Clipping.Clip`);
- `MapSize`, computed the way Go computes it: a 64-bit unsigned shift whose high
  bits are lost (`TileSystem.MapSize`);
- the pixel/tile conversions. They keep Go's `int` semantics: division truncates
  toward zero, and multiplication wraps around at 64 bits;
- the quadkey encoder `TileXYToQuadKey` and the decoder `QuadKeyToTileXY`, bit
  for bit. This includes `1 << k` for shifts of 63 or more, and the decoder's
  `-1` sentinel for a bad character, which later `|=` steps leave alone;
- the integer tail of `LatLongToPixelXY` (round, clamp, truncate) and the chain
  pixel -> tile -> quadkey of `LatLongToQuadKey`. The projected map position is
  an input.

Go's `int` is taken to be 64 bits wide. The `GoInt` module gives the bit-level
operations the source uses, over unbounded integers:

- `TestBit` is the two's-complement bit.
- `ShiftMask` is `1 << k`.
- `MaskHit` is `x & (1 << k) != 0`.
- `OrMask` is `x | (1 << k)`. Its contract says it sets bit `k` and leaves the
  other 63 bits alone. `GoInt.Int64Extensional` shows that those 64 bits
  determine an `int`.

On a bad character the decoder overwrites both coordinates with `-1` and
carries on (Quadkeys.go:198-200); the model follows this in
`QuadKey.QuadKeyToTileXY`. `QuadKey.ParseQuadKey` is a decoder that instead
reports the first bad character, or a key finer than `MaxLevel`.
`QuadKey.ParseAgreesWithQuadKeyToTileXY` proves the two agree on every key of
at most `MaxLevel` characters.

## Model

| member | source | states |
|---|---|---|
| `Clipping.Clip` | Quadkeys.go:30-32 | the result never exceeds the maximum; when min <= max it lies in [min, max], equals n when n is already in range, and equals the violated bound otherwise; crossed bounds give the maximum |
| `Clipping.ClipIsNearest` | Quadkeys.go:30-32 | the clamped value is the point of [min, max] nearest to n |
| `Clipping.ClipIdempotent` | Quadkeys.go:30-32 | clamping twice is clamping once |
| `Clipping.ClipMonotone` | Quadkeys.go:30-32 | clamping preserves order |
| `GoInt.TruncDiv` | Quadkeys.go:128-129 | Go's `/` by a positive divisor truncates toward zero: the quotient times the divisor is within one divisor of the dividend, on the dividend's side of zero |
| `GoInt.Wrap64` | Quadkeys.go:142-143 | the wrapped product is an `int` congruent to the exact product modulo 2^64, and equal to it when it fits |
| `GoInt.ShiftMask` | Quadkeys.go:159 | `1 << k` has exactly bit k set among the 64 bits of an `int`, and is 0 for shifts of 64 or more |
| `GoInt.MaskHitSign` | Quadkeys.go:160-165 | testing with `1 << 63` tests the sign |
| `GoInt.OrMask` | Quadkeys.go:189-196 | x or-ed with `1 << k` has bit k set and every other of its 64 bits as in x; shifts of 64 or more leave x unchanged |
| `GoInt.Int64Extensional` | Quadkeys.go:189-196 | two `int`s with the same 64 bits are equal, so the bit contract of `OrMask` determines its result |
| `TileSystem.MapSize` | Quadkeys.go:41-43 | the result is a 64-bit unsigned multiple of 256; for levels up to 55 it is 256 * 2^level, from 56 on the shift overflows to 0 |
| `TileSystem.MapSizeInRange` | Quadkeys.go:34-43 | for the documented levels up to 23 the map is between 256 and 2^31 pixels wide |
| `TileSystem.MapSizeDoubles` | Quadkeys.go:41-43 | each finer level doubles the map width while the shift does not overflow |
| `TileSystem.MapSizeInTiles` | Quadkeys.go:41-43 | for levels up to 55, the map is 2^level tiles wide |
| `TileSystem.PixelXYToTileXY` | Quadkeys.go:127-131 | a non-negative pixel lies in its tile: 256*t <= p < 256*t + 256; a negative one is truncated toward zero |
| `TileSystem.TileXYToPixelXY` | Quadkeys.go:141-145 | the result is a multiple of 256 congruent to 256 times the tile modulo 2^64, and equal to it when that fits an `int` |
| `TileSystem.TileToPixelToTile` | Quadkeys.go:127-145 | for tiles with both coordinates in [-2^55, 2^55), a tile's corner pixel converts back to the tile |
| `TileSystem.TileToPixelWrapsAt2To55` | Quadkeys.go:127-145 | tile column 2^55 has a corner pixel that wraps to -2^63 and converts back to column -2^55, so the round trip's bound is tight |
| `TileSystem.PixelToTileCorner` | Quadkeys.go:127-145 | a non-negative pixel converts to a tile whose corner pixel is at most 255 to its upper left |
| `TileSystem.PixelInMapTileInRange` | Quadkeys.go:127-131 | every pixel of the map at a level lies in a tile with coordinates in [0, 2^level) |
| `QuadKey.Digit` | Quadkeys.go:158-166 | the digit's low bit is the column's bit k and its high bit the row's bit k |
| `QuadKey.TileXYToQuadKey` | Quadkeys.go:155-170 | the key has exactly `level` characters, all in 0..3, and the character at position p is the digit of bit level-1-p |
| `QuadKey.EncodeSpellsLowBits` | Quadkeys.go:157-168 | read as a binary number per axis, the key of a level up to 64 is the coordinate modulo 2^level |
| `QuadKey.QuadKeyToTileXY` | Quadkeys.go:179-204 | the level is the key's length; a valid key of at most 63 digits gives coordinates in [0, 2^length); any bad character gives -1, -1 |
| `QuadKey.DecodeLoopValid` | Quadkeys.go:183-197 | on a valid key of at most 63 digits the loop ends with, on each axis, the binary number the digits spell |
| `QuadKey.DecodePoisoned` | Quadkeys.go:189-200 | once both coordinates are -1, later iterations leave them -1 |
| `QuadKey.DecodeInvalid` | Quadkeys.go:198-200 | a bad character anywhere makes the result -1, -1, discarding the bits decoded before it |
| `QuadKey.QuadKeyRoundTrip` | Quadkeys.go:155-204 | for levels up to 63 and coordinates in [0, 2^level), decoding the encoded key gives back the tile and the level |
| `QuadKey.TileXYRoundTrip` | Quadkeys.go:155-204 | for valid keys of up to 63 digits, encoding the decoded tile at the decoded level gives back the key |
| `QuadKey.QuadKeyInjective` | Quadkeys.go:155-170 | different tiles of a level have different keys |
| `QuadKey.EncodeExample` | Quadkeys.go:155-170 | column 3, row 5 at level 3 is "213" |
| `QuadKey.ParseQuadKey` | Quadkeys.go:179-204 | success exactly on valid keys up to `MaxLevel`, with the tile whose key is the input; otherwise the first bad character and its position, or the too-high level |
| `QuadKey.ParseAgreesWithQuadKeyToTileXY` | Quadkeys.go:179-204 | up to `MaxLevel` the sentinel decoder gives the parsed tile on success, and gives -1, -1 exactly when parsing fails |
| `QuadKey.InvalidKeyExample` | Quadkeys.go:179-204 | "12x3" is rejected at position 2 ('x'), and the sentinel decoder returns -1, -1 at level 4 |
| `Projection.RoundToPixel` | Quadkeys.go:92-93 | the pixel is on the map, within half a pixel of the scaled position when that lies on the map, and the edge pixel otherwise |
| `Projection.PixelCoordinate` | Quadkeys.go:91-93 | the pixel lies in [0, MapSize(level)); it rounds the scaled position to the nearest pixel when that lies on the map, and is the edge pixel 0 or MapSize(level) - 1 when it lies off the map on that side |
| `Projection.ProjectedToPixelXY` | Quadkeys.go:91-95 | both pixel coordinates lie on the map, and each is the scaled position rounded to the nearest pixel when that position lies on the map, and the edge pixel 0 or MapSize(level) - 1 when it lies off the map on that side |
| `Projection.ProjectedToQuadKey` | Quadkeys.go:206-210 | the key has one digit per level and decodes, at that level, to the tile containing the position's pixel |

## Left out

- `GroundResolution` and `MapScale` (Quadkeys.go:54-71) are left out: they are floating-point cosine arithmetic.
- `PixelXYToLatLong` (Quadkeys.go:108-117) is left out: it is floating-point `Atan`/`Exp` arithmetic.
- The projection in `LatLongToPixelXY` (Quadkeys.go:84-89) is left out: it clamps latitude and longitude, then uses `Sin` and `Log`. Its two results, the projected position across and down the map, are inputs to `Projection.ProjectedToPixelXY` and `Projection.ProjectedToQuadKey`.
- The constants `EarthRadius`, `MinLatitude`, `MaxLatitude`, `MinLongitude` and `MaxLongitude` are not modelled, because only the floating-point code uses them.
- `init` (Quadkeys.go:19-21) is empty.
- The `bytes.Buffer` and `strconv.Itoa` plumbing of the encoder is modelled as building a `string` directly.
- Clipping.Clip: works over exact reals, so NaN, infinities and signed zeros, which `math.Min` and `math.Max` treat specially, are not modelled.
- Projection.RoundToPixel: the scaled position is an exact real, so float64 rounding of the product `x*float64(mapSize)` and of the sum `+ 0.5` is not modelled. For example, for v = 0.49999999999999994 the float64 sum v + 0.5 rounds to 1.0 and Go gives pixel 1, where the exact model gives 0.
- Projection.PixelCoordinate: requires a level of at most `MaxLevel`, the range the source documents. Beyond 55 the unsigned `mapSize-1` wraps, which is not modelled.
- QuadKey.QuadKeyToTileXY: each character of the key stands for one byte of the Go string. A non-ASCII character, several bytes in Go, counts once, so the model's level can be smaller than Go's for such keys. Such a key is rejected with -1, -1 either way.
- QuadKey.QuadKeyRoundTrip: stated for levels up to 63. At level 64 the top digit goes into the sign bit, and beyond 64 leading digits are dropped. `QuadKeyToTileXY` models both cases, but no round-trip lemma covers them.
- TileSystem.TileToPixelToTile: stated only for tile coordinates in [-2^55, 2^55). From 2^55 on, `tileX * 256` wraps around in Go, and `TileSystem.TileToPixelWrapsAt2To55` shows the round trip then fails. Real maps use tiles below 2^23, so the bound is not a defect in practice.
- Go's `int` is taken as 64 bits. A 32-bit platform is not modelled.
