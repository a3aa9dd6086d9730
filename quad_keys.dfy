/**
 * Quadkeys: the base-4 tile addresses of the Bing Maps tile system, as the
 * Python port computes them, through strings.
 *
 * The encoder formats each tile index in binary zero-padded to the level of
 * detail, zips the two bit strings (Y bit first), and reads the result two
 * characters at a time as base-4 digits. The decoder formats each digit as two
 * binary characters and parses the characters at even and odd positions back
 * into the two indices.
 */
module QuadKeys {
  import opened TileMath

  /** A string of '0' and '1' characters. */
  predicate IsBitString(s: seq<char>)
  {
    forall i :: 0 <= i < |s| ==> s[i] == '0' || s[i] == '1'
  }

  /** A string of quadkey digits '0'..'3'. */
  predicate IsQuadDigits(q: seq<char>)
  {
    forall i :: 0 <= i < |q| ==> '0' <= q[i] <= '3'
  }

  /**
   * A string of ASCII decimal digits. Python's `int(num)` on one character also
   * accepts the other Unicode decimal digits; the model does not.
   */
  predicate IsDecimalDigits(q: seq<char>)
  {
    forall i :: 0 <= i < |q| ==> '0' <= q[i] <= '9'
  }

  function BitChar(b: nat): char
    requires b < 2
  {
    if b == 0 then '0' else '1'
  }

  function BitValue(c: char): nat
  {
    if c == '1' then 1 else 0
  }

  function DigitChar(d: nat): char
    requires d < 10
  {
    ('0' as int + d) as char
  }

  function DigitValue(c: char): nat
    requires '0' <= c <= '9'
  {
    c as int - '0' as int
  }

  function Zeros(k: nat): (s: seq<char>)
    ensures |s| == k && forall i :: 0 <= i < k ==> s[i] == '0'
  {
    seq(k, _ => '0')
  }

  /** Bit `i` (counting from the least significant, bit 0) of `n`. */
  function Bit(n: nat, i: nat): (b: nat)
    ensures b < 2
  {
    if i == 0 then n % 2 else Bit(n / 2, i - 1)
  }

  /** Python's `'{0:b}'.format(n)`: shortest binary form, "0" for zero. */
  function Binary(n: nat): (s: seq<char>)
    ensures |s| >= 1 && IsBitString(s)
  {
    if n < 2 then [BitChar(n)] else Binary(n / 2) + [BitChar(n % 2)]
  }

  /** Python's `'{0:0{1}b}'.format(n, width)`: binary form left-padded with zeros to `width`. */
  function PadBinary(n: nat, width: nat): (s: seq<char>)
    ensures |s| >= 1 && |s| >= width && IsBitString(s)
  {
    var b := Binary(n);
    if |b| >= width then b else Zeros(width - |b|) + b
  }

  /** The low `width` bits of `n`, most significant first. */
  function FixedBits(n: nat, width: nat): (s: seq<char>)
    ensures |s| == width && IsBitString(s)
  {
    if width == 0 then [] else FixedBits(n / 2, width - 1) + [BitChar(n % 2)]
  }

  /** Python's `int(s, 2)` on a bit string, with the empty string read as 0. */
  function ParseBinary(s: seq<char>): (n: nat)
    requires IsBitString(s)
    ensures n < Pow2(|s|)
  {
    if s == [] then 0 else 2 * ParseBinary(s[..|s| - 1]) + BitValue(s[|s| - 1])
  }

  /** `''.join(itertools.chain(*zip(ys, xs)))`: alternate characters, stopping at the shorter string. */
  function Interleave(ys: seq<char>, xs: seq<char>): (s: seq<char>)
    ensures |s| == 2 * (if |ys| <= |xs| then |ys| else |xs|) && |s| % 2 == 0
    ensures IsBitString(ys) && IsBitString(xs) ==> IsBitString(s)
  {
    if ys == [] || xs == [] then [] else [ys[0], xs[0]] + Interleave(ys[1..], xs[1..])
  }

  /** `s[::2]`. */
  function Evens(s: seq<char>): (r: seq<char>)
    ensures |r| == (|s| + 1) / 2
    ensures IsBitString(s) ==> IsBitString(r)
  {
    if |s| <= 1 then s else [s[0]] + Evens(s[2..])
  }

  /** `s[1::2]`. */
  function Odds(s: seq<char>): (r: seq<char>)
    ensures |r| == |s| / 2
    ensures IsBitString(s) ==> IsBitString(r)
  {
    if |s| <= 1 then [] else [s[1]] + Odds(s[2..])
  }

  /**
   * `''.join([str(int(num, 2)) for num in re.findall('..?', s)])`: each pair
   * of bits (and a trailing single bit) becomes one digit.
   */
  function PairsToDigits(s: seq<char>): (q: seq<char>)
    requires IsBitString(s)
    ensures |q| == (|s| + 1) / 2 && IsQuadDigits(q)
    decreases |s|
  {
    if s == [] then []
    else
      var k := if |s| == 1 then 1 else 2;
      assert Pow2(k) <= 4;
      [DigitChar(ParseBinary(s[..k]))] + PairsToDigits(s[k..])
  }

  /** `''.join(['{0:02b}'.format(int(num)) for num in q])`: each digit in binary, at least two bits. */
  function DigitsToBits(q: seq<char>): (s: seq<char>)
    requires IsDecimalDigits(q)
    ensures |s| >= 2 * |q| && IsBitString(s)
  {
    if q == [] then [] else PadBinary(DigitValue(q[0]), 2) + DigitsToBits(q[1..])
  }

  /** `TileSystem.TileXYToQuadKey`. */
  function TileXYToQuadKey(tileX: nat, tileY: nat, levelOfDetail: nat): (key: seq<char>)
    ensures |key| >= 1 && |key| >= levelOfDetail && IsQuadDigits(key)
  {
    var tileXBits := PadBinary(tileX, levelOfDetail);
    var tileYBits := PadBinary(tileY, levelOfDetail);
    PairsToDigits(Interleave(tileYBits, tileXBits))
  }

  /**
   * `TileSystem.QuadKeyToTileXY`. Python raises on an empty key (`int('', 2)`)
   * and on a character that is not a decimal digit; the preconditions exclude
   * those, and also the non-ASCII decimal digits Python would accept.
   */
  function QuadKeyToTileXY(quadKey: seq<char>): (tile: (nat, nat))
    requires quadKey != [] && IsDecimalDigits(quadKey)
    ensures IsQuadDigits(quadKey) ==> tile.0 < Pow2(|quadKey|) && tile.1 < Pow2(|quadKey|)
  {
    assert IsQuadDigits(quadKey) ==> |DigitsToBits(quadKey)| == 2 * |quadKey| by {
      if IsQuadDigits(quadKey) {
        PairsOfDigitBits(quadKey);
      }
    }
    var quadKeyBin := DigitsToBits(quadKey);
    (ParseBinary(Odds(quadKeyBin)), ParseBinary(Evens(quadKeyBin)))
  }

  // ---------------------------------------------------------------------------
  // Binary strings

  lemma {:induction false} FixedBitsOfZero(width: nat)
    ensures FixedBits(0, width) == Zeros(width)
  {
    if width > 0 {
      FixedBitsOfZero(width - 1);
    }
  }

  /** A number below 2^width has a binary form of at most `width` bits, which zero-padding turns into its low `width` bits. */
  lemma {:induction false} BinaryPadded(n: nat, width: nat)
    requires width >= 1 && n < Pow2(width)
    ensures |Binary(n)| <= width
    ensures Zeros(width - |Binary(n)|) + Binary(n) == FixedBits(n, width)
    decreases n
  {
    if n < 2 {
      FixedBitsOfZero(width - 1);
      assert FixedBits(n, width) == FixedBits(0, width - 1) + [BitChar(n)];
    } else {
      assert width >= 2;
      BinaryPadded(n / 2, width - 1);
      var b' := Binary(n / 2);
      var c := BitChar(n % 2);
      calc {
        Zeros(width - |Binary(n)|) + Binary(n);
        Zeros(width - 1 - |b'|) + (b' + [c]);
        (Zeros(width - 1 - |b'|) + b') + [c];
        FixedBits(n / 2, width - 1) + [c];
        FixedBits(n, width);
      }
    }
  }

  /** Zero-padding to `width` gives exactly the low `width` bits of any number that fits. */
  lemma PadBinaryIsFixedBits(n: nat, width: nat)
    requires width >= 1 && n < Pow2(width)
    ensures PadBinary(n, width) == FixedBits(n, width)
  {
    BinaryPadded(n, width);
    if |Binary(n)| == width {
      assert Zeros(0) + Binary(n) == Binary(n);
    }
  }

  /** Character `k` of the fixed-width form is bit `width - 1 - k`. */
  lemma {:induction false} FixedBitsAt(n: nat, width: nat, k: nat)
    requires k < width
    ensures FixedBits(n, width)[k] == BitChar(Bit(n, width - 1 - k))
  {
    if k < width - 1 {
      FixedBitsAt(n / 2, width - 1, k);
    }
  }

  /** Parsing the fixed-width form of a number that fits gives it back. */
  lemma {:induction false} ParseFixedBits(n: nat, width: nat)
    requires n < Pow2(width)
    ensures ParseBinary(FixedBits(n, width)) == n
  {
    if width > 0 {
      var f := FixedBits(n, width);
      assert f[..width - 1] == FixedBits(n / 2, width - 1);
      assert n / 2 < Pow2(width - 1);
      ParseFixedBits(n / 2, width - 1);
      assert BitValue(f[width - 1]) == n % 2;
    }
  }

  /** Printing the parsed value of a bit string at its own width gives the string back. */
  lemma {:induction false} FixedBitsOfParse(s: seq<char>)
    requires IsBitString(s)
    ensures FixedBits(ParseBinary(s), |s|) == s
  {
    if s != [] {
      var s' := s[..|s| - 1];
      FixedBitsOfParse(s');
      assert s' + [s[|s| - 1]] == s;
    }
  }

  // ---------------------------------------------------------------------------
  // Interleaving

  /** Characters `2i` and `2i + 1` of the interleaving are character `i` of each string. */
  lemma {:induction false} InterleaveAt(ys: seq<char>, xs: seq<char>, i: nat)
    requires i < |ys| && i < |xs|
    ensures Interleave(ys, xs)[2 * i] == ys[i] && Interleave(ys, xs)[2 * i + 1] == xs[i]
  {
    if i > 0 {
      InterleaveAt(ys[1..], xs[1..], i - 1);
    }
  }

  /** De-interleaving undoes interleaving of two strings of equal length. */
  lemma {:induction false} SplitInterleave(ys: seq<char>, xs: seq<char>)
    requires |ys| == |xs|
    ensures Evens(Interleave(ys, xs)) == ys && Odds(Interleave(ys, xs)) == xs
  {
    if ys != [] {
      var s := Interleave(ys, xs);
      assert s[2..] == Interleave(ys[1..], xs[1..]);
      SplitInterleave(ys[1..], xs[1..]);
      assert ys == [ys[0]] + ys[1..] && xs == [xs[0]] + xs[1..];
    }
  }

  /** Interleaving undoes de-interleaving of a string of even length. */
  lemma {:induction false} InterleaveSplit(s: seq<char>)
    requires |s| % 2 == 0
    ensures Interleave(Evens(s), Odds(s)) == s
    decreases |s|
  {
    if s != [] {
      var e, o := Evens(s), Odds(s);
      assert e[1..] == Evens(s[2..]) && o[1..] == Odds(s[2..]);
      InterleaveSplit(s[2..]);
      assert s == [s[0], s[1]] + s[2..];
    }
  }

  // ---------------------------------------------------------------------------
  // Digits and bit pairs

  /** The value of a two-character bit string. */
  lemma ParseTwoBits(s: seq<char>)
    requires IsBitString(s) && |s| == 2
    ensures ParseBinary(s) == 2 * BitValue(s[0]) + BitValue(s[1])
  {
    assert s[..1][..0] == [];
  }

  /** Digit `k` of the digit string is read from bits `2k` and `2k + 1`. */
  lemma {:induction false} PairsToDigitsAt(s: seq<char>, k: nat)
    requires IsBitString(s) && k < |s| / 2
    ensures DigitValue(PairsToDigits(s)[k]) == 2 * BitValue(s[2 * k]) + BitValue(s[2 * k + 1])
  {
    assert PairsToDigits(s) == [DigitChar(ParseBinary(s[..2]))] + PairsToDigits(s[2..]);
    if k == 0 {
      ParseTwoBits(s[..2]);
    } else {
      PairsToDigitsAt(s[2..], k - 1);
      assert s[2..][2 * (k - 1)] == s[2 * k] && s[2..][2 * (k - 1) + 1] == s[2 * k + 1];
    }
  }

  /** Reading a bit string that starts with a whole pair: the pair's digit, then the rest. */
  lemma PairsToDigitsCons(pair: seq<char>, rest: seq<char>)
    requires IsBitString(pair) && |pair| == 2 && IsBitString(rest)
    ensures ParseBinary(pair) < 4
    ensures PairsToDigits(pair + rest) == [DigitChar(ParseBinary(pair))] + PairsToDigits(rest)
  {
    var s := pair + rest;
    assert s[..2] == pair && s[2..] == rest;
  }

  /** A quadkey digit expands to the two bits of its value. */
  lemma DigitPair(c: char)
    requires '0' <= c <= '3'
    ensures var p := PadBinary(DigitValue(c), 2);
            |p| == 2 && ParseBinary(p) == DigitValue(c) && DigitChar(ParseBinary(p)) == c
  {
    var d := DigitValue(c);
    assert Pow2(2) == 4;
    PadBinaryIsFixedBits(d, 2);
    ParseFixedBits(d, 2);
  }

  /** Splitting quadkey digits into bit pairs and reading the pairs back gives the digits. */
  lemma {:induction false} PairsOfDigitBits(q: seq<char>)
    requires IsQuadDigits(q)
    ensures |DigitsToBits(q)| == 2 * |q|
    ensures PairsToDigits(DigitsToBits(q)) == q
  {
    if q != [] {
      var c, tail := q[0], q[1..];
      assert q == [c] + tail;
      PairsOfDigitBits(tail);
      DigitBitsCons(c, tail);
    }
  }

  /** One step of `PairsOfDigitBits`: a leading quadkey digit keeps both facts. */
  lemma DigitBitsCons(c: char, tail: seq<char>)
    requires '0' <= c <= '3' && IsQuadDigits(tail)
    requires |DigitsToBits(tail)| == 2 * |tail| && PairsToDigits(DigitsToBits(tail)) == tail
    ensures |DigitsToBits([c] + tail)| == 2 * (|tail| + 1)
    ensures PairsToDigits(DigitsToBits([c] + tail)) == [c] + tail
  {
    var p := PadBinary(DigitValue(c), 2);
    var rest := DigitsToBits(tail);
    DigitsToBitsCons(c, tail);
    DigitPair(c);
    PairsToDigitsCons(p, rest);
  }

  /** The bits of a leading digit come first, then the bits of the rest. */
  lemma DigitsToBitsCons(c: char, tail: seq<char>)
    requires '0' <= c <= '9' && IsDecimalDigits(tail)
    ensures IsDecimalDigits([c] + tail)
    ensures DigitsToBits([c] + tail) == PadBinary(DigitValue(c), 2) + DigitsToBits(tail)
  {
    var q := [c] + tail;
    assert q[0] == c && q[1..] == tail;
  }

  /** A two-bit string is the zero-padded two-bit form of its value. */
  lemma TwoBitsRoundTrip(pair: seq<char>)
    requires IsBitString(pair) && |pair| == 2
    ensures ParseBinary(pair) < 4
    ensures PadBinary(ParseBinary(pair), 2) == pair
  {
    assert Pow2(2) == 4;
    PadBinaryIsFixedBits(ParseBinary(pair), 2);
    FixedBitsOfParse(pair);
  }

  /** Reading an even-length bit string as digits and expanding the digits gives the string. */
  lemma {:induction false} DigitBitsOfPairs(s: seq<char>)
    requires IsBitString(s) && |s| % 2 == 0
    ensures DigitsToBits(PairsToDigits(s)) == s
    decreases |s|
  {
    if s != [] {
      var pair, tail := s[..2], s[2..];
      assert s == pair + tail;
      assert IsBitString(pair) && IsBitString(tail);
      DigitBitsOfPairs(tail);
      PairBitsCons(pair, tail);
    }
  }

  /** One step of `DigitBitsOfPairs`: a leading bit pair keeps the round trip. */
  lemma PairBitsCons(pair: seq<char>, tail: seq<char>)
    requires IsBitString(pair) && |pair| == 2 && IsBitString(tail)
    requires DigitsToBits(PairsToDigits(tail)) == tail
    ensures IsBitString(pair + tail)
    ensures DigitsToBits(PairsToDigits(pair + tail)) == pair + tail
  {
    TwoBitsRoundTrip(pair);
    PairsToDigitsCons(pair, tail);
    var c, rest := DigitChar(ParseBinary(pair)), PairsToDigits(tail);
    assert DigitValue(c) == ParseBinary(pair);
    DigitsToBitsCons(c, rest);
  }

  // ---------------------------------------------------------------------------
  // Properties of the quadkey encoding

  /**
   * For a tile that exists at level `levelOfDetail >= 1`, the quadkey has one
   * digit per level, each in '0'..'3', and digit `k` (most significant first)
   * is twice bit `levelOfDetail - 1 - k` of tileY plus that bit of tileX.
   */
  lemma QuadKeyDigits(tileX: nat, tileY: nat, levelOfDetail: nat)
    requires levelOfDetail >= 1 && tileX < Pow2(levelOfDetail) && tileY < Pow2(levelOfDetail)
    ensures var q := TileXYToQuadKey(tileX, tileY, levelOfDetail);
            && |q| == levelOfDetail && IsQuadDigits(q)
            && forall k :: 0 <= k < levelOfDetail ==>
                 DigitValue(q[k]) == 2 * Bit(tileY, levelOfDetail - 1 - k) + Bit(tileX, levelOfDetail - 1 - k)
  {
    var xs := PadBinary(tileX, levelOfDetail);
    var ys := PadBinary(tileY, levelOfDetail);
    PadBinaryIsFixedBits(tileX, levelOfDetail);
    PadBinaryIsFixedBits(tileY, levelOfDetail);
    var s := Interleave(ys, xs);
    var q := PairsToDigits(s);
    forall k | 0 <= k < levelOfDetail
      ensures DigitValue(q[k]) == 2 * Bit(tileY, levelOfDetail - 1 - k) + Bit(tileX, levelOfDetail - 1 - k)
    {
      FixedBitsAt(tileX, levelOfDetail, k);
      FixedBitsAt(tileY, levelOfDetail, k);
      PairsToDigitsAt(s, k);
      InterleaveAt(ys, xs, k);
    }
  }

  /** Decoding the quadkey of a tile that exists at its level gives the tile back. */
  lemma QuadKeyRoundTrip(tileX: nat, tileY: nat, levelOfDetail: nat)
    requires levelOfDetail >= 1 && tileX < Pow2(levelOfDetail) && tileY < Pow2(levelOfDetail)
    ensures var q := TileXYToQuadKey(tileX, tileY, levelOfDetail);
            q != [] && IsDecimalDigits(q) && QuadKeyToTileXY(q) == (tileX, tileY)
  {
    var xs := PadBinary(tileX, levelOfDetail);
    var ys := PadBinary(tileY, levelOfDetail);
    PadBinaryIsFixedBits(tileX, levelOfDetail);
    PadBinaryIsFixedBits(tileY, levelOfDetail);
    assert |ys| == levelOfDetail && |xs| == levelOfDetail;
    DecodeOfInterleave(ys, xs);
    ParseFixedBits(tileX, levelOfDetail);
    ParseFixedBits(tileY, levelOfDetail);
  }

  /** The decoder applied to the digits of two interleaved bit strings of one length parses each string. */
  lemma DecodeOfInterleave(ys: seq<char>, xs: seq<char>)
    requires IsBitString(ys) && IsBitString(xs) && |ys| == |xs| >= 1
    ensures var q := PairsToDigits(Interleave(ys, xs));
            q != [] && IsDecimalDigits(q) && QuadKeyToTileXY(q) == (ParseBinary(xs), ParseBinary(ys))
  {
    var s := Interleave(ys, xs);
    DecodeOfPairs(s);
    SplitInterleave(ys, xs);
  }

  /** The decoder applied to the digits read from a non-empty even-length bit string parses its odd and even characters. */
  lemma DecodeOfPairs(s: seq<char>)
    requires IsBitString(s) && |s| % 2 == 0 && s != []
    ensures var q := PairsToDigits(s);
            q != [] && IsDecimalDigits(q) && QuadKeyToTileXY(q) == (ParseBinary(Odds(s)), ParseBinary(Evens(s)))
  {
    DigitBitsOfPairs(s);
  }

  /**
   * Encoding the tile of a quadkey made of digits '0'..'3', at the key's own
   * length as level, gives the key back; the tile exists at that level.
   */
  lemma TileRoundTrip(quadKey: seq<char>)
    requires quadKey != [] && IsQuadDigits(quadKey)
    ensures var tile := QuadKeyToTileXY(quadKey);
            && tile.0 < Pow2(|quadKey|) && tile.1 < Pow2(|quadKey|)
            && TileXYToQuadKey(tile.0, tile.1, |quadKey|) == quadKey
  {
    var level := |quadKey|;
    var s := DigitsToBits(quadKey);
    PairsOfDigitBits(quadKey);
    assert |s| == 2 * level;
    var ys, xs := Evens(s), Odds(s);
    assert |ys| == level && |xs| == level;
    var tileY, tileX := ParseBinary(ys), ParseBinary(xs);
    assert QuadKeyToTileXY(quadKey) == (tileX, tileY);
    FixedBitsOfParse(ys);
    FixedBitsOfParse(xs);
    PadBinaryIsFixedBits(tileY, level);
    PadBinaryIsFixedBits(tileX, level);
    assert PadBinary(tileY, level) == ys && PadBinary(tileX, level) == xs;
    InterleaveSplit(s);
    assert TileXYToQuadKey(tileX, tileY, level) == PairsToDigits(s);
  }

  /** Two tiles of one level with the same quadkey are the same tile. */
  lemma QuadKeyInjective(x1: nat, y1: nat, x2: nat, y2: nat, levelOfDetail: nat)
    requires levelOfDetail >= 1
    requires x1 < Pow2(levelOfDetail) && y1 < Pow2(levelOfDetail)
    requires x2 < Pow2(levelOfDetail) && y2 < Pow2(levelOfDetail)
    requires TileXYToQuadKey(x1, y1, levelOfDetail) == TileXYToQuadKey(x2, y2, levelOfDetail)
    ensures x1 == x2 && y1 == y2
  {
    QuadKeyRoundTrip(x1, y1, levelOfDetail);
    QuadKeyRoundTrip(x2, y2, levelOfDetail);
  }

  /** At level 0 the zero-padded format still prints one bit, so the root's key is "0", not empty. */
  lemma QuadKeyAtLevelZero()
    ensures TileXYToQuadKey(0, 0, 0) == "0"
  {
    assert PadBinary(0, 0) == "0";
    assert Interleave("0", "0") == "00";
    assert ParseBinary("00") == 0;
  }

  // ---------------------------------------------------------------------------
  // Unchecked decoding and the checked decoder

  /**
   * The decoder does not reject digits 4..9: "4" is formatted as the three bits
   * "100", which decode to tile (0, 2), a tile that does not exist at level 1
   * and whose level-1 key is "2", not "4".
   */
  lemma UncheckedDigitDecodesOutsideLevel()
    ensures QuadKeyToTileXY("4") == (0, 2)
    ensures 2 >= Pow2(|"4"|)
    ensures TileXYToQuadKey(0, 2, 1) == "2"
  {
    DigitFourDecodes();
    TileZeroTwoEncodes();
  }

  /** Binary forms of 2 and 4. */
  lemma BinaryOfTwoAndFour()
    ensures Binary(2) == "10" && Binary(4) == "100"
  {
    assert Binary(1) == "1";
    assert Binary(2) == Binary(1) + "0";
    assert Binary(4) == Binary(2) + "0";
  }

  /** The decoder expands '4' to "100" and splits it into "10" (tileY) and "0" (tileX). */
  lemma DigitFourDecodes()
    ensures QuadKeyToTileXY("4") == (0, 2)
  {
    BinaryOfTwoAndFour();
    assert DigitValue('4') == 4;
    assert PadBinary(4, 2) == "100";
    assert DigitsToBits("4") == PadBinary(4, 2) + DigitsToBits([]);
    var bits := DigitsToBits("4");
    assert bits == "100";
    assert Odds(bits) == "0";
    assert Evens(bits) == [bits[0]] + Evens(bits[2..]);
    assert Evens(bits) == "10";
    assert "10"[..1] == "1";
    assert ParseBinary("10") == 2;
  }

  /** At level 1, tile (0, 2) is encoded from the bits "10" and "0" as "2". */
  lemma TileZeroTwoEncodes()
    ensures TileXYToQuadKey(0, 2, 1) == "2"
  {
    BinaryOfTwoAndFour();
    assert PadBinary(2, 1) == "10";
    assert PadBinary(0, 1) == "0";
    assert Interleave("10", "0") == "10";
    assert "10"[..2] == "10" && "10"[2..] == [];
    assert ParseBinary("10"[..1]) == 1;
    assert ParseBinary("10") == 2;
    assert DigitChar(2) == '2';
  }

  /** Outcome of the checked decoder. */
  datatype Decoded = Decoded(tileX: nat, tileY: nat) | InvalidAddress

  /**
   * The decoder with the validation the tile system calls for: the empty key
   * and any character outside '0'..'3' are an invalid address.
   */
  function CheckedQuadKeyToTileXY(quadKey: seq<char>): (r: Decoded)
    ensures r.Decoded? <==> quadKey != [] && IsQuadDigits(quadKey)
    ensures r.Decoded? ==> r.tileX < Pow2(|quadKey|) && r.tileY < Pow2(|quadKey|)
    ensures r.Decoded? ==> TileXYToQuadKey(r.tileX, r.tileY, |quadKey|) == quadKey
  {
    if quadKey == [] || !IsQuadDigits(quadKey) then InvalidAddress
    else
      TileRoundTrip(quadKey);
      var tile := QuadKeyToTileXY(quadKey);
      Decoded(tile.0, tile.1)
  }
}
