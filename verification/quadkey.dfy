/**
 * Quadkeys: the base-4 strings that name the tiles of a level of detail, one
 * digit per level, coarsest first. The digit for a level carries that level's
 * bit of the tile column as 1 and of the tile row as 2, so a key interleaves
 * the bits of the two coordinates from the most significant one down.
 *
 * A key is a sequence of characters, each standing for one byte of the Go
 * string: the decoder indexes and counts bytes.
 */
module QuadKey {
  import opened GoInt
  import opened TileSystem

  /** What decoding a quadkey yields: the tile and the level of detail. */
  datatype KeyTile = KeyTile(tile: TileXY, level: nat)

  predicate IsQuadDigit(c: char)
  {
    '0' <= c <= '3'
  }

  predicate ValidQuadKey(key: string)
  {
    forall i :: 0 <= i < |key| ==> IsQuadDigit(key[i])
  }

  /** The character of a digit 0..3. */
  function DigitChar(d: nat): (c: char)
    requires d < 4
    ensures IsQuadDigit(c)
  {
    "0123"[d]
  }

  /** The digit for bit k of a tile: 1 if the column has it, plus 2 if the row has it. */
  function Digit(x: Int64, y: Int64, k: nat): (d: nat)
    ensures d < 4
    ensures d % 2 == 1 <==> MaskHit(x, k)
    ensures d / 2 == 1 <==> MaskHit(y, k)
  {
    (if MaskHit(x, k) then 1 else 0) + (if MaskHit(y, k) then 2 else 0)
  }

  /** The quadkey of a tile at a level of detail: the loop from bit level-1 down
      to bit 0, appending one digit per bit. */
  function TileXYToQuadKey(x: Int64, y: Int64, level: nat): (key: string)
    ensures |key| == level
    ensures ValidQuadKey(key)
    ensures forall p :: 0 <= p < level ==> key[p] == DigitChar(Digit(x, y, level - 1 - p))
  {
    if level == 0 then ""
    else [DigitChar(Digit(x, y, level - 1))] + TileXYToQuadKey(x, y, level - 1)
  }

  /** One iteration of the decoding loop: the character's digit sets bit k of the
      column, the row, both or neither; any other character overwrites both with -1. */
  function DecodeStep(acc: TileXY, c: char, k: nat): TileXY
  {
    match c
    case '0' => acc
    case '1' => TileXY(OrMask(acc.x, k), acc.y)
    case '2' => TileXY(acc.x, OrMask(acc.y, k))
    case '3' => TileXY(OrMask(acc.x, k), OrMask(acc.y, k))
    case _ => TileXY(-1, -1)
  }

  /** The decoding loop from counter i down to 1: the iteration with counter i
      reads the character at position |key| - i and sets bit i - 1. */
  function DecodeLoop(key: string, i: nat, acc: TileXY): TileXY
    requires i <= |key|
    decreases i
  {
    if i == 0 then acc
    else DecodeLoop(key, i - 1, DecodeStep(acc, key[|key| - i], i - 1))
  }

  /** Decodes a quadkey into its tile and level. The level is the key's length;
      a character outside 0..3 makes both coordinates -1. */
  function QuadKeyToTileXY(key: string): (r: KeyTile)
    ensures r.level == |key|
    ensures ValidQuadKey(key) && |key| <= 63 ==>
      0 <= r.tile.x < Pow2(|key|) && 0 <= r.tile.y < Pow2(|key|)
    ensures !ValidQuadKey(key) ==> r.tile == TileXY(-1, -1)
  {
    DecodeLoopOutcome(key);
    KeyTile(DecodeLoop(key, |key|, TileXY(0, 0)), |key|)
  }

  lemma DecodeLoopOutcome(key: string)
    ensures ValidQuadKey(key) && |key| <= 63 ==>
      var t := DecodeLoop(key, |key|, TileXY(0, 0));
      0 <= t.x < Pow2(|key|) && 0 <= t.y < Pow2(|key|)
    ensures !ValidQuadKey(key) ==> DecodeLoop(key, |key|, TileXY(0, 0)) == TileXY(-1, -1)
  {
    if ValidQuadKey(key) && |key| <= 63 {
      DecodeValidKey(key);
      AxisValueBound(key, Column);
      AxisValueBound(key, Row);
    } else if !ValidQuadKey(key) {
      var q :| 0 <= q < |key| && !IsQuadDigit(key[q]);
      DecodeInvalid(key, |key|, TileXY(0, 0), q);
    }
  }

  // ---------------------------------------------------------------------------
  // The number a valid key spells on each axis

  datatype Axis = Column | Row

  /** The bit a digit character contributes to an axis. */
  function AxisBit(c: char, axis: Axis): (b: nat)
    requires IsQuadDigit(c)
    ensures b < 2
  {
    var d := (c as int) - ('0' as int);
    if axis == Column then d % 2 else d / 2
  }

  /** The binary number the digits of a valid key spell on one axis, the first
      digit most significant. */
  function AxisValue(key: string, axis: Axis): nat
    requires ValidQuadKey(key)
    decreases |key|
  {
    if |key| == 0 then 0
    else 2 * AxisValue(key[..|key| - 1], axis) + AxisBit(key[|key| - 1], axis)
  }

  lemma {:induction false} AxisValueBound(key: string, axis: Axis)
    requires ValidQuadKey(key)
    ensures AxisValue(key, axis) < Pow2(|key|)
    decreases |key|
  {
    if |key| > 0 {
      AxisValueBound(key[..|key| - 1], axis);
    }
  }

  /** Reading the first digit separately: it is worth 2^(number of digits after it). */
  lemma {:induction false} AxisValuePrepend(c: char, s: string, axis: Axis)
    requires IsQuadDigit(c) && ValidQuadKey(s)
    ensures ValidQuadKey([c] + s)
    ensures AxisValue([c] + s, axis) == AxisBit(c, axis) * Pow2(|s|) + AxisValue(s, axis)
    decreases |s|
  {
    var k := [c] + s;
    assert ValidQuadKey(k) by {
      forall i | 0 <= i < |k| ensures IsQuadDigit(k[i]) {
        if i > 0 { assert k[i] == s[i - 1]; }
      }
    }
    if |s| > 0 {
      var init := s[..|s| - 1];
      assert k[..|k| - 1] == [c] + init;
      AxisValuePrepend(c, init, axis);
    }
  }

  /** Bit j of an axis value is that axis's bit of the digit j places from the end. */
  lemma {:induction false} AxisValueBits(key: string, axis: Axis, j: nat)
    requires ValidQuadKey(key) && j < |key|
    ensures TestBit(AxisValue(key, axis), j) <==> AxisBit(key[|key| - 1 - j], axis) == 1
    decreases |key|
  {
    var init := key[..|key| - 1];
    var b := AxisBit(key[|key| - 1], axis);
    HalfOfAddEven(b, AxisValue(init, axis));
    if j > 0 {
      AxisValueBits(init, axis, j - 1);
      assert init[|init| - 1 - (j - 1)] == key[|key| - 1 - j];
    }
  }

  // ---------------------------------------------------------------------------
  // The decoder on valid and on invalid keys

  lemma DecodeStepDigit(acc: TileXY, c: char, k: nat)
    requires IsQuadDigit(c)
    ensures DecodeStep(acc, c, k) == TileXY(
      if AxisBit(c, Column) == 1 then OrMask(acc.x, k) else acc.x,
      if AxisBit(c, Row) == 1 then OrMask(acc.y, k) else acc.y)
  {
    assert c == '0' || c == '1' || c == '2' || c == '3';
  }

  /** Setting bit i-1 of a multiple of 2^i adds 2^(i-1). */
  lemma SetLowBitOfMultiple(a: nat, i: nat)
    requires 1 <= i <= 63
    requires a * Pow2(i) < TwoTo63
    ensures OrMask(a * Pow2(i), i - 1) == (2 * a + 1) * Pow2(i - 1)
  {
    TestBitZero(i - 1);
    TestBitAddMultiple(0, a, i, i - 1);
    assert !MaskHit(a * Pow2(i), i - 1);
    assert a * Pow2(i) == 2 * a * Pow2(i - 1);
  }

  /** One valid iteration of the decoding loop on one coordinate: with the higher
      bits a already in place above bit i, bit b lands at bit i - 1. */
  lemma AccumulateBit(v: Int64, a: nat, b: nat, i: nat)
    requires 1 <= i <= 63 && b < 2
    requires v == a * Pow2(i)
    ensures (if b == 1 then OrMask(v, i - 1) else v) == (2 * a + b) * Pow2(i - 1)
  {
    if b == 1 {
      SetLowBitOfMultiple(a, i);
    } else {
      assert a * Pow2(i) == 2 * a * Pow2(i - 1);
    }
  }

  /** The axis value of a prefix one digit longer. */
  lemma AxisValueExtend(key: string, p: nat, axis: Axis)
    requires ValidQuadKey(key) && p < |key|
    ensures ValidQuadKey(key[..p]) && ValidQuadKey(key[..p + 1])
    ensures AxisValue(key[..p + 1], axis) == 2 * AxisValue(key[..p], axis) + AxisBit(key[p], axis)
  {
    var longer := key[..p + 1];
    assert longer[..|longer| - 1] == key[..p];
    assert longer[|longer| - 1] == key[p];
  }

  /** The decoding loop on a valid key of at most 63 digits, with the bits above
      i already accumulated, ends with the axis values of the whole key. */
  lemma {:induction false} DecodeLoopValid(key: string, i: nat, acc: TileXY)
    requires ValidQuadKey(key) && |key| <= 63 && i <= |key|
    requires acc.x == AxisValue(key[..|key| - i], Column) * Pow2(i)
    requires acc.y == AxisValue(key[..|key| - i], Row) * Pow2(i)
    ensures DecodeLoop(key, i, acc).x == AxisValue(key, Column)
    ensures DecodeLoop(key, i, acc).y == AxisValue(key, Row)
    decreases i
  {
    if i == 0 {
      assert key[..|key|] == key;
    } else {
      var p := |key| - i;
      var c := key[p];
      DecodeStepDigit(acc, c, i - 1);
      AxisValueExtend(key, p, Column);
      AxisValueExtend(key, p, Row);
      AccumulateBit(acc.x, AxisValue(key[..p], Column), AxisBit(c, Column), i);
      AccumulateBit(acc.y, AxisValue(key[..p], Row), AxisBit(c, Row), i);
      assert |key| - (i - 1) == p + 1;
      DecodeLoopValid(key, i - 1, DecodeStep(acc, c, i - 1));
    }
  }

  /** A valid key of at most 63 digits decodes to the numbers it spells. */
  lemma DecodeValidKey(key: string)
    requires ValidQuadKey(key) && |key| <= 63
    ensures DecodeLoop(key, |key|, TileXY(0, 0)).x == AxisValue(key, Column)
    ensures DecodeLoop(key, |key|, TileXY(0, 0)).y == AxisValue(key, Row)
  {
    assert key[..0] == [];
    DecodeLoopValid(key, |key|, TileXY(0, 0));
  }

  /** Once both coordinates are -1 every later iteration leaves them so: -1 has
      every bit set, so `|= mask` changes nothing. */
  lemma {:induction false} DecodePoisoned(key: string, i: nat)
    requires i <= |key|
    ensures DecodeLoop(key, i, TileXY(-1, -1)) == TileXY(-1, -1)
    decreases i
  {
    if i > 0 {
      var k := i - 1;
      if k < 64 {
        TestBitMinusOne(k);
      }
      assert OrMask(-1, k) == -1;
      DecodePoisoned(key, i - 1);
    }
  }

  /** A character outside 0..3 at or after the loop's current position makes the
      result -1, -1 whatever was accumulated before it. */
  lemma {:induction false} DecodeInvalid(key: string, i: nat, acc: TileXY, q: nat)
    requires i <= |key| && |key| - i <= q < |key|
    requires !IsQuadDigit(key[q])
    ensures DecodeLoop(key, i, acc) == TileXY(-1, -1)
    decreases i
  {
    var p := |key| - i;
    if p == q {
      assert DecodeStep(acc, key[p], i - 1) == TileXY(-1, -1);
      DecodePoisoned(key, i - 1);
    } else {
      DecodeInvalid(key, i - 1, DecodeStep(acc, key[p], i - 1), q);
    }
  }

  // ---------------------------------------------------------------------------
  // Round trips

  lemma DigitCharBits(d: nat)
    requires d < 4
    ensures AxisBit(DigitChar(d), Column) == d % 2
    ensures AxisBit(DigitChar(d), Row) == d / 2
  {
    assert d == 0 || d == 1 || d == 2 || d == 3;
  }

  lemma DigitCharOfBits(c: char)
    requires IsQuadDigit(c)
    ensures DigitChar(AxisBit(c, Column) + 2 * AxisBit(c, Row)) == c
  {
    assert c == '0' || c == '1' || c == '2' || c == '3';
  }

  /** The coordinate of a tile along an axis. */
  function Coordinate(x: Int64, y: Int64, axis: Axis): Int64
  {
    if axis == Column then x else y
  }

  /** The digit for bit k carries that bit of each coordinate on its axis. */
  lemma DigitAxisBit(x: Int64, y: Int64, k: nat, axis: Axis)
    requires k < 64
    ensures AxisBit(DigitChar(Digit(x, y, k)), axis) == if TestBit(Coordinate(x, y, axis), k) then 1 else 0
  {
    DigitCharBits(Digit(x, y, k));
  }

  /** A key of at most 64 digits spells the low bits of the tile's coordinates. */
  lemma {:induction false} EncodeSpellsLowBits(x: Int64, y: Int64, level: nat, axis: Axis)
    requires level <= 64
    ensures AxisValue(TileXYToQuadKey(x, y, level), axis) == Coordinate(x, y, axis) % Pow2(level)
    decreases level
  {
    if level > 0 {
      var v := Coordinate(x, y, axis);
      var c := DigitChar(Digit(x, y, level - 1));
      var rest := TileXYToQuadKey(x, y, level - 1);
      assert TileXYToQuadKey(x, y, level) == [c] + rest;
      EncodeSpellsLowBits(x, y, level - 1, axis);
      DigitAxisBit(x, y, level - 1, axis);
      AxisValuePrepend(c, rest, axis);
      ModPow2Split(v, level - 1);
      SplitSum(AxisValue([c] + rest, axis), AxisBit(c, axis), TestBit(v, level - 1),
               Pow2(level - 1), AxisValue(rest, axis), v % Pow2(level - 1), v % Pow2(level));
    }
  }

  /** The inductive step of `EncodeSpellsLowBits`: the key's first digit
      contributes its axis bit `b` times the place value `p`, and the rest of the
      key spells the `low` bits; since `b` is the coordinate's bit `bit`, the total
      is the coordinate's bit at place `p` plus its lower bits. */
  lemma SplitSum(total: int, b: nat, bit: bool, p: int, rest: int, low: int, all: int)
    requires b == if bit then 1 else 0
    requires total == b * p + rest && rest == low
    requires all == (if bit then p else 0) + low
    ensures total == all
  {
  }

  /** Encoding a tile of a level and decoding the key gives back the tile and the level. */
  lemma QuadKeyRoundTrip(x: Int64, y: Int64, level: nat)
    requires level <= 63
    requires 0 <= x < Pow2(level) && 0 <= y < Pow2(level)
    ensures QuadKeyToTileXY(TileXYToQuadKey(x, y, level)) == KeyTile(TileXY(x, y), level)
  {
    var key := TileXYToQuadKey(x, y, level);
    DecodeValidKey(key);
    EncodeSpellsLowBits(x, y, level, Column);
    EncodeSpellsLowBits(x, y, level, Row);
    DivModUnique(x, Pow2(level), 0, x);
    DivModUnique(y, Pow2(level), 0, y);
  }

  /** Decoding a valid key and encoding the tile at the key's level gives back the key. */
  lemma TileXYRoundTrip(key: string)
    requires ValidQuadKey(key) && |key| <= 63
    ensures var r := QuadKeyToTileXY(key);
      TileXYToQuadKey(r.tile.x, r.tile.y, r.level) == key
  {
    var r := QuadKeyToTileXY(key);
    var l := |key|;
    DecodeValidKey(key);
    var back := TileXYToQuadKey(r.tile.x, r.tile.y, l);
    forall p | 0 <= p < l
      ensures back[p] == key[p]
    {
      var j := l - 1 - p;
      AxisValueBits(key, Column, j);
      AxisValueBits(key, Row, j);
      assert key[l - 1 - j] == key[p];
      DigitCharOfBits(key[p]);
    }
  }

  /** Different tiles of a level have different keys. */
  lemma QuadKeyInjective(x1: Int64, y1: Int64, x2: Int64, y2: Int64, level: nat)
    requires level <= 63
    requires 0 <= x1 < Pow2(level) && 0 <= y1 < Pow2(level)
    requires 0 <= x2 < Pow2(level) && 0 <= y2 < Pow2(level)
    requires TileXYToQuadKey(x1, y1, level) == TileXYToQuadKey(x2, y2, level)
    ensures x1 == x2 && y1 == y2
  {
    QuadKeyRoundTrip(x1, y1, level);
    QuadKeyRoundTrip(x2, y2, level);
  }

  /** Tile column 3, row 5 at level 3 is "213". */
  lemma EncodeExample()
    ensures TileXYToQuadKey(3, 5, 3) == "213"
  {
  }

  // ---------------------------------------------------------------------------
  // A decoder that reports malformed keys instead of the -1 sentinel

  datatype QuadKeyError =
    | InvalidDigit(position: nat, found: char)
    | LevelTooHigh(level: nat)

  datatype DecodeResult = Decoded(value: KeyTile) | Rejected(error: QuadKeyError)

  /** The position of the first character outside 0..3 at or after `from`, or |key|. */
  function FirstInvalid(key: string, from: nat): (i: nat)
    requires from <= |key|
    ensures from <= i <= |key|
    ensures forall j :: from <= j < i ==> IsQuadDigit(key[j])
    ensures i < |key| ==> !IsQuadDigit(key[i])
    decreases |key| - from
  {
    if from == |key| || !IsQuadDigit(key[from]) then from
    else FirstInvalid(key, from + 1)
  }

  /** Decodes a key of the documented levels, naming the first bad character of a
      malformed key and rejecting keys finer than the finest level. */
  function ParseQuadKey(key: string): (r: DecodeResult)
    ensures r.Decoded? <==> ValidQuadKey(key) && |key| <= MaxLevel
    ensures r.Decoded? ==>
      && r.value.level == |key|
      && 0 <= r.value.tile.x < Pow2(|key|) && 0 <= r.value.tile.y < Pow2(|key|)
      && TileXYToQuadKey(r.value.tile.x, r.value.tile.y, |key|) == key
    ensures r.Rejected? && r.error.InvalidDigit? ==>
      && r.error.position < |key|
      && key[r.error.position] == r.error.found
      && !IsQuadDigit(r.error.found)
      && forall j :: 0 <= j < r.error.position ==> IsQuadDigit(key[j])
    ensures r.Rejected? && r.error.LevelTooHigh? ==>
      ValidQuadKey(key) && r.error.level == |key| > MaxLevel
  {
    var bad := FirstInvalid(key, 0);
    if bad < |key| then
      Rejected(InvalidDigit(bad, key[bad]))
    else if |key| > MaxLevel then
      Rejected(LevelTooHigh(|key|))
    else
      ParsedTileFacts(key);
      Decoded(KeyTile(TileXY(AxisValue(key, Column), AxisValue(key, Row)), |key|))
  }

  lemma ParsedTileFacts(key: string)
    requires ValidQuadKey(key) && |key| <= MaxLevel
    ensures AxisValue(key, Column) < Pow2(|key|) <= TwoTo63
    ensures AxisValue(key, Row) < Pow2(|key|)
    ensures TileXYToQuadKey(AxisValue(key, Column), AxisValue(key, Row), |key|) == key
  {
    Pow2Constants();
    Pow2Monotone(|key|, 63);
    AxisValueBound(key, Column);
    AxisValueBound(key, Row);
    DecodeValidKey(key);
    TileXYRoundTrip(key);
  }

  /** On keys of the documented levels the sentinel decoder and the reporting one
      agree: the same tile for a valid key, and -1, -1 exactly when the key is rejected. */
  lemma ParseAgreesWithQuadKeyToTileXY(key: string)
    requires |key| <= MaxLevel
    ensures ParseQuadKey(key).Decoded? ==> QuadKeyToTileXY(key) == ParseQuadKey(key).value
    ensures ParseQuadKey(key).Rejected? <==> QuadKeyToTileXY(key).tile == TileXY(-1, -1)
  {
    if ValidQuadKey(key) {
      DecodeValidKey(key);
    }
  }

  /** "12x3" is rejected at its third character; the sentinel decoder drops the
      bits of "12" and returns -1, -1 at level 4. */
  lemma InvalidKeyExample()
    ensures ParseQuadKey("12x3") == Rejected(InvalidDigit(2, 'x'))
    ensures QuadKeyToTileXY("12x3") == KeyTile(TileXY(-1, -1), 4)
  {
    assert !IsQuadDigit("12x3"[2]);
  }
}
