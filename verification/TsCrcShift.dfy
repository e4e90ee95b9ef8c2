/** Dividing by 0x04C11DB7 one bit at a time, the CRC of Annex A of
    ISO/IEC 13818-1.

    A turn of eight bits is linear over exclusive or, which is what makes a lookup
    table possible. */
module TsCrcShift {

  // One bit: shift out the top bit, and subtract the polynomial if it was set
  function ShiftOne(c: bv32): bv32 {
    if c & 0x8000_0000 != 0 then (c << 1) ^ 0x04c1_1db7 else c << 1
  }

  function ShiftEight(c: bv32): bv32 {
    ShiftOne(ShiftOne(ShiftOne(ShiftOne(ShiftOne(ShiftOne(ShiftOne(ShiftOne(c))))))))
  }

  predicate Sum(c: bv32, a: bv32, b: bv32) {
    c == a ^ b
  }

  predicate Top(c: bv32) {
    c & 0x8000_0000 != 0
  }

  lemma ShiftTop(c: bv32)
    ensures Top(c) ==> ShiftOne(c) == (c << 1) ^ 0x04c1_1db7
    ensures !Top(c) ==> ShiftOne(c) == c << 1
  {
  }

  lemma TopXor(x: bv32, y: bv32)
    ensures Top(x ^ y) <==> Top(x) != Top(y)
  {
  }

  lemma BothTop(x: bv32, y: bv32)
    ensures Sum((x ^ y) << 1, (x << 1) ^ 0x04c1_1db7, (y << 1) ^ 0x04c1_1db7)
  {
  }

  lemma LeftTop(x: bv32, y: bv32)
    ensures Sum(((x ^ y) << 1) ^ 0x04c1_1db7, (x << 1) ^ 0x04c1_1db7, y << 1)
  {
  }

  lemma RightTop(x: bv32, y: bv32)
    ensures Sum(((x ^ y) << 1) ^ 0x04c1_1db7, x << 1, (y << 1) ^ 0x04c1_1db7)
  {
  }

  lemma NoTop(x: bv32, y: bv32)
    ensures Sum((x ^ y) << 1, x << 1, y << 1)
  {
  }

  lemma ShiftXor(x: bv32, y: bv32)
    ensures Sum(ShiftOne(x ^ y), ShiftOne(x), ShiftOne(y))
  {
    hide *;
    ShiftTop(x);
    ShiftTop(y);
    ShiftTop(x ^ y);
    TopXor(x, y);
    BothTop(x, y);
    LeftTop(x, y);
    RightTop(x, y);
    NoTop(x, y);
  }

  lemma ShiftLinear(z: bv32, x: bv32, y: bv32)
    requires Sum(z, x, y)
    ensures Sum(ShiftOne(z), ShiftOne(x), ShiftOne(y))
  {
    hide ShiftOne;
    ShiftXor(x, y);
  }

  /** Shifting eight bits in is linear over exclusive or. */
  lemma EightLinear(z: bv32, x: bv32, y: bv32)
    requires Sum(z, x, y)
    ensures Sum(ShiftEight(z), ShiftEight(x), ShiftEight(y))
  {
    hide ShiftOne, Sum;
    var x1, y1, z1 := ShiftOne(x), ShiftOne(y), ShiftOne(z);
    ShiftLinear(z, x, y);
    var x2, y2, z2 := ShiftOne(x1), ShiftOne(y1), ShiftOne(z1);
    ShiftLinear(z1, x1, y1);
    var x3, y3, z3 := ShiftOne(x2), ShiftOne(y2), ShiftOne(z2);
    ShiftLinear(z2, x2, y2);
    var x4, y4, z4 := ShiftOne(x3), ShiftOne(y3), ShiftOne(z3);
    ShiftLinear(z3, x3, y3);
    var x5, y5, z5 := ShiftOne(x4), ShiftOne(y4), ShiftOne(z4);
    ShiftLinear(z4, x4, y4);
    var x6, y6, z6 := ShiftOne(x5), ShiftOne(y5), ShiftOne(z5);
    ShiftLinear(z5, x5, y5);
    var x7, y7, z7 := ShiftOne(x6), ShiftOne(y6), ShiftOne(z6);
    ShiftLinear(z6, x6, y6);
    ShiftLinear(z7, x7, y7);
  }

  // The low three bytes only move up.
  lemma ShiftLow(z: bv32)
    requires z & 0xff00_0000 == 0
    ensures ShiftEight(z) == z << 8
  {
  }

  // The polynomial is odd, so no remainder is shifted away.
  lemma ShiftOneZero(c: bv32)
    ensures ShiftOne(c) == 0 <==> c == 0
  {
  }

  lemma ShiftEightZero(c: bv32)
    ensures ShiftEight(c) == 0 <==> c == 0
  {
    hide ShiftOne;
    var c1 := ShiftOne(c);
    var c2 := ShiftOne(c1);
    var c3 := ShiftOne(c2);
    var c4 := ShiftOne(c3);
    var c5 := ShiftOne(c4);
    var c6 := ShiftOne(c5);
    var c7 := ShiftOne(c6);
    ShiftOneZero(c);
    ShiftOneZero(c1);
    ShiftOneZero(c2);
    ShiftOneZero(c3);
    ShiftOneZero(c4);
    ShiftOneZero(c5);
    ShiftOneZero(c6);
    ShiftOneZero(c7);
  }

  // One byte b, its bits from the top down
  function ByteIn(c: bv32, b: bv32): bv32 {
    ShiftEight(c ^ (b << 24))
  }

  // Dividing a remainder's own top byte out of it
  lemma OwnByte(c: bv32)
    ensures ByteIn(c, (c >> 24) & 0xff) == c << 8
  {
  }

  lemma ByteXor(z: bv32, c: bv32, d: bv32, b: bv32)
    requires Sum(z, c, d)
    ensures Sum(z ^ (b << 24), c ^ (b << 24), d)
  {
  }

  // A difference of two remainders moves on without the data.
  lemma ByteInLinear(z: bv32, c: bv32, d: bv32, b: bv32)
    requires Sum(z, c, d)
    ensures Sum(ByteIn(z, b), ByteIn(c, b), ShiftEight(d))
  {
    hide ShiftEight, Sum;
    ByteXor(z, c, d, b);
    EightLinear(z ^ (b << 24), c ^ (b << 24), d);
  }

  // The table index for byte b
  function Index(c: bv32, b: bv32): bv32 {
    ((c >> 24) ^ b) & 0xff
  }

  lemma IndexSmall(c: bv32, b: bv32)
    ensures Index(c, b) < 256
  {
  }

  lemma HighAndLow(c: bv32, b: bv32)
    requires b < 256
    ensures Sum(c ^ (b << 24), Index(c, b) << 24, c & 0x00ff_ffff)
    ensures (c & 0x00ff_ffff) & 0xff00_0000 == 0 && (c & 0x00ff_ffff) << 8 == c << 8
  {
  }

  // A byte goes in as a table lookup on the top byte and a move of the rest.
  lemma ByteByTable(c: bv32, b: bv32)
    requires b < 256
    ensures Sum(ByteIn(c, b), ShiftEight(Index(c, b) << 24), c << 8)
  {
    HighAndLow(c, b);
    hide ShiftEight, Index, Sum;
    EightLinear(c ^ (b << 24), Index(c, b) << 24, c & 0x00ff_ffff);
    ShiftLow(c & 0x00ff_ffff);
  }

  lemma SumZero(z: bv32, c: bv32, d: bv32)
    requires Sum(z, c, d)
    ensures z == c <==> d == 0
  {
  }

  lemma SumThree(t: bv32, s: bv32, e: bv32, f: bv32, x: bv32, h: bv32)
    requires t == x ^ h && Sum(h, e, f) && Sum(s, e, x)
    ensures Sum(t, s, f)
  {
  }

  lemma SumMore(z: bv32, s: bv32, c: bv32, d: bv32, f: bv32)
    requires Sum(z, s, f) && Sum(s, c, d)
    ensures Sum(z, c, d ^ f)
  {
  }
}
