/** The bit cursor over an RBSP, and the fixed-length and Exp-Golomb codes of
    sections 7.2, 9.1 and 9.1.1 of ITU-T H.264 that it reads. */
module VuiBits {
  import opened Basics
  import opened VuiEscape

  type Bits = seq<bool>

  // ---- bits of a byte buffer, most significant first

  function Mask(k: nat): bv8
    requires k < 8
  {
    match k
    case 0 => 0x80 case 1 => 0x40 case 2 => 0x20 case 3 => 0x10
    case 4 => 0x08 case 5 => 0x04 case 6 => 0x02 case _ => 0x01
  }

  predicate Has(b: bv8, k: nat)
    requires k < 8
  {
    b & Mask(k) != 0
  }

  predicate BitAt(s: Bytes, k: nat)
    requires k < 8 * |s|
  {
    Has(s[k / 8], k % 8)
  }

  function BitsOf(s: Bytes): (r: Bits)
    ensures |r| == 8 * |s|
  {
    seq(8 * |s|, k requires 0 <= k < 8 * |s| => BitAt(s, k))
  }

  // ---- the cursor

  datatype Cur = Cur(bit: nat, overflow: bool)

  // A uint32_t holds v modulo 2^32.
  function Wrap(v: int): (r: nat)
    ensures 0 <= v < 0x1_0000_0000 ==> r == v
  {
    v % 0x1_0000_0000
  }

  function ReadOn(bs: Bits, c: Cur, n: nat, v: nat): (r: (Cur, nat))
    ensures r.0.bit >= c.bit
    decreases n
  {
    if n == 0 then (c, v)
    else if c.bit >= |bs| then (c.(overflow := true), 0)
    else ReadOn(bs, c.(bit := c.bit + 1), n - 1, Wrap(2 * v + (if bs[c.bit] then 1 else 0)))
  }

  // vb_read
  function Read(bs: Bits, c: Cur, n: nat): (r: (Cur, nat))
    ensures r.0.bit >= c.bit
  {
    ReadOn(bs, c, n, 0)
  }

  // The loop of vb_ue that counts leading zeros
  function CountOn(bs: Bits, c: Cur, zeros: nat): (r: (Cur, nat))
    ensures r.0.bit >= c.bit
    decreases 33 - zeros
  {
    if c.overflow then (c, zeros)
    else
      var (d, b) := Read(bs, c, 1);
      if b == 0 && zeros < 32 then CountOn(bs, d, zeros + 1) else (d, zeros)
  }

  function Pow2(n: nat): (r: nat)
    ensures r > 0
  {
    if n == 0 then 1 else 2 * Pow2(n - 1)
  }

  // `1u << zeros`; with 32 zeros, where C leaves it open, a word wraps round
  function Shifted(zeros: nat): nat {
    if zeros >= 32 then 1 else Pow2(zeros)
  }

  // vb_ue
  function Ue(bs: Bits, c: Cur): (r: (Cur, nat))
    ensures r.0.bit >= c.bit
  {
    var (d, zeros) := CountOn(bs, c, 0);
    var (e, v) := Read(bs, d, zeros);
    (e, Wrap(Shifted(zeros) - 1 + v))
  }

  function SignedOf(v: nat): int {
    if v % 2 == 1 then Wrap(v + 1) / 2 else -(v / 2)
  }

  // vb_se
  function Se(bs: Bits, c: Cur): (r: (Cur, int))
    ensures r.0.bit >= c.bit
  {
    var (d, v) := Ue(bs, c);
    (d, SignedOf(v))
  }

  // ---- a read depends only on the bits it passed

  // The two buffers are as long as each other and agree before bit q.
  predicate SameTo(a: Bits, b: Bits, q: nat) {
    |a| == |b| && forall k | 0 <= k < q && k < |a| :: a[k] == b[k]
  }

  lemma {:induction false} ReadOnSame(a: Bits, b: Bits, c: Cur, n: nat, v: nat)
    requires SameTo(a, b, ReadOn(a, c, n, v).0.bit)
    ensures ReadOn(b, c, n, v) == ReadOn(a, c, n, v)
    decreases n
  {
    if n > 0 && c.bit < |a| {
      ReadOnSame(a, b, c.(bit := c.bit + 1), n - 1, Wrap(2 * v + (if a[c.bit] then 1 else 0)));
    }
  }

  lemma ReadSame(a: Bits, b: Bits, c: Cur, n: nat)
    requires SameTo(a, b, Read(a, c, n).0.bit)
    ensures Read(b, c, n) == Read(a, c, n)
  {
    ReadOnSame(a, b, c, n, 0);
  }

  lemma {:induction false} CountSame(a: Bits, b: Bits, c: Cur, zeros: nat)
    requires SameTo(a, b, CountOn(a, c, zeros).0.bit)
    ensures CountOn(b, c, zeros) == CountOn(a, c, zeros)
    decreases 33 - zeros
  {
    hide Read;
    if !c.overflow {
      var (d, x) := Read(a, c, 1);
      ReadSame(a, b, c, 1);
      if x == 0 && zeros < 32 {
        CountSame(a, b, d, zeros + 1);
      }
    }
  }

  lemma UeSame(a: Bits, b: Bits, c: Cur)
    requires SameTo(a, b, Ue(a, c).0.bit)
    ensures Ue(b, c) == Ue(a, c)
  {
    hide Read, CountOn;
    var (d, zeros) := CountOn(a, c, 0);
    CountSame(a, b, c, 0);
    ReadSame(a, b, d, zeros);
  }

  lemma SeSame(a: Bits, b: Bits, c: Cur)
    requires SameTo(a, b, Se(a, c).0.bit)
    ensures Se(b, c) == Se(a, c)
  {
    hide Ue;
    UeSame(a, b, c);
  }

  // ---- the codes

  // u(n)
  function UBits(n: nat, v: nat): (r: Bits)
    ensures |r| == n
  {
    if n == 0 then []
    else [v >= Pow2(n - 1)] + UBits(n - 1, if v >= Pow2(n - 1) then v - Pow2(n - 1) else v)
  }

  function Zeros(n: nat): (r: Bits)
    ensures |r| == n
  {
    if n == 0 then [] else [false] + Zeros(n - 1)
  }

  // The largest z with 2^z <= v
  function Log2(v: nat): (z: nat)
    requires v > 0
    ensures Pow2(z) <= v < 2 * Pow2(z)
  {
    if v < 2 then 0 else 1 + Log2(v / 2)
  }

  // ue(v): as many zeros as there are bits after the first one
  function UeBits(v: nat): Bits {
    var z := Log2(v + 1);
    Zeros(z) + [true] + UBits(z, v + 1 - Pow2(z))
  }

  // se(v): 0, 1, -1, 2, -2, ... in code number order
  function SeBits(k: int): Bits {
    UeBits(if k > 0 then 2 * k - 1 else -2 * k)
  }

  // The bits x stand at bit p of the buffer.
  predicate At(bs: Bits, p: nat, x: Bits) {
    p + |x| <= |bs| && bs[p..p + |x|] == x
  }

  lemma AtSplit(bs: Bits, p: nat, x: Bits, y: Bits)
    ensures At(bs, p, x + y) <==> At(bs, p, x) && At(bs, p + |x|, y)
  {
    if p + |x| + |y| <= |bs| {
      var w := bs[p..p + |x| + |y|];
      assert w[..|x|] == bs[p..p + |x|] && w[|x|..] == bs[p + |x|..p + |x| + |y|];
      assert w == w[..|x|] + w[|x|..];
    }
  }

  lemma {:induction false} Pow2Mono(a: nat, b: nat)
    requires a <= b
    ensures Pow2(a) <= Pow2(b)
  {
    if a < b {
      Pow2Mono(a, b - 1);
    }
  }

  lemma Pow2Word()
    ensures Pow2(32) == 0x1_0000_0000
  {
    assert Pow2(8) == 256;
    assert Pow2(16) == 65536;
    assert Pow2(24) == 0x100_0000;
  }

  // Reading n more bits of value v after a prefix of value acc
  lemma {:induction false} ReadsOn(bs: Bits, c: Cur, n: nat, acc: nat, v: nat)
    requires v < Pow2(n) && acc * Pow2(n) + v < 0x1_0000_0000 && At(bs, c.bit, UBits(n, v))
    ensures ReadOn(bs, c, n, acc) == (c.(bit := c.bit + n), acc * Pow2(n) + v)
    decreases n
  {
    if n > 0 {
      var h := Pow2(n - 1);
      var b := if v >= h then 1 else 0;
      var w := if v >= h then v - h else v;
      NextValue(acc, b, w, h);
      assert b * h + w == v;
      AtSplit(bs, c.bit, [v >= h], UBits(n - 1, w));
      assert bs[c.bit..c.bit + 1] == [v >= h];
      assert bs[c.bit] == (v >= h);
      ReadsOn(bs, c.(bit := c.bit + 1), n - 1, 2 * acc + b, w);
    }
  }

  lemma NextValue(acc: nat, b: nat, w: nat, h: nat)
    requires h > 0 && b <= 1
    ensures (2 * acc + b) * h + w == acc * (2 * h) + (b * h + w)
    ensures 2 * acc + b <= (2 * acc + b) * h
  {
    Distribute(2 * acc, b, h);
    Grows(2 * acc + b, h);
    assert 2 * acc * h == acc * (2 * h);
  }

  lemma Distribute(x: nat, y: nat, h: nat)
    ensures (x + y) * h == x * h + y * h
  {
  }

  lemma {:induction false} Grows(x: nat, h: nat)
    requires h > 0
    ensures x <= x * h
  {
    if x > 0 {
      Grows(x - 1, h);
      Distribute(x - 1, 1, h);
    }
  }

  /** vb_read inverts u(n), for codes of up to 32 bits. */
  lemma ReadsU(bs: Bits, c: Cur, n: nat, v: nat)
    requires n <= 32 && v < Pow2(n) && At(bs, c.bit, UBits(n, v))
    ensures Read(bs, c, n) == (c.(bit := c.bit + n), v)
  {
    Pow2Mono(n, 32);
    Pow2Word();
    ReadsOn(bs, c, n, 0, v);
  }

  lemma ReadOne(bs: Bits, c: Cur, b: bool)
    requires At(bs, c.bit, [b])
    ensures Read(bs, c, 1) == (c.(bit := c.bit + 1), if b then 1 else 0)
  {
    assert bs[c.bit..c.bit + 1] == [b];
    assert bs[c.bit] == b;
    assert ReadOn(bs, c, 1, 0) == ReadOn(bs, c.(bit := c.bit + 1), 0, if b then 1 else 0);
  }

  lemma {:induction false} CountsZeroBits(bs: Bits, c: Cur, zeros: nat, z: nat)
    requires !c.overflow && zeros + z < 32 && At(bs, c.bit, Zeros(z) + [true])
    ensures CountOn(bs, c, zeros) == (c.(bit := c.bit + z + 1), zeros + z)
    decreases z
  {
    hide Read;
    if z == 0 {
      assert Zeros(0) + [true] == [true];
      ReadOne(bs, c, true);
    } else {
      assert Zeros(z) + [true] == [false] + (Zeros(z - 1) + [true]);
      AtSplit(bs, c.bit, [false], Zeros(z - 1) + [true]);
      ReadOne(bs, c, false);
      CountsZeroBits(bs, c.(bit := c.bit + 1), zeros + 1, z - 1);
    }
  }

  lemma UeParts(v: nat)
    requires v + 1 < 0x1_0000_0000
    ensures var z := Log2(v + 1);
            && z < 32 && Pow2(z) <= v + 1 < 2 * Pow2(z)
            && UeBits(v) == Zeros(z) + [true] + UBits(z, v + 1 - Pow2(z))
            && |UeBits(v)| == 2 * z + 1
            && Wrap(Shifted(z) - 1 + (v + 1 - Pow2(z))) == v
  {
    var z := Log2(v + 1);
    Pow2Word();
    if z >= 32 {
      Pow2Mono(32, z);
      assert false;
    }
  }

  /** vb_ue inverts ue(v) of section 9.1, for every code of up to 31 zeros. */
  lemma ReadsUe(bs: Bits, c: Cur, v: nat)
    requires !c.overflow && v + 1 < 0x1_0000_0000 && At(bs, c.bit, UeBits(v))
    ensures Ue(bs, c) == (c.(bit := c.bit + |UeBits(v)|), v)
  {
    hide At, Ue, UBits, Zeros, Shifted, Wrap, UeBits, Log2;
    UeParts(v);
    var z := Log2(v + 1);
    ReadsParts(bs, c, z, v + 1 - Pow2(z));
  }

  lemma ReadsParts(bs: Bits, c: Cur, z: nat, low: nat)
    requires !c.overflow && z < 32 && low < Pow2(z) && At(bs, c.bit, Zeros(z) + [true] + UBits(z, low))
    ensures Ue(bs, c) == (c.(bit := c.bit + 2 * z + 1), Wrap(Shifted(z) - 1 + low))
  {
    hide *;
    AtSplit(bs, c.bit, Zeros(z) + [true], UBits(z, low));
    var d := c.(bit := c.bit + z + 1);
    CountsZeroBits(bs, c, 0, z);
    ReadsU(bs, d, z, low);
    UeIs(bs, c, d, z, d.(bit := d.bit + z), low);
  }

  lemma UeIs(bs: Bits, c: Cur, d: Cur, z: nat, e: Cur, low: nat)
    requires CountOn(bs, c, 0) == (d, z) && Read(bs, d, z) == (e, low)
    ensures Ue(bs, c) == (e, Wrap(Shifted(z) - 1 + low))
  {
  }

  /** vb_se inverts se(v) of section 9.1.1. */
  lemma ReadsSe(bs: Bits, c: Cur, k: int)
    requires !c.overflow && -0x7FFF_FFFF <= k <= 0x7FFF_FFFF && At(bs, c.bit, SeBits(k))
    ensures Se(bs, c) == (c.(bit := c.bit + |SeBits(k)|), k)
  {
    hide Ue, At, UeBits;
    ReadsUe(bs, c, if k > 0 then 2 * k - 1 else -2 * k);
  }

  // ---- the cursor object

  class BitReader {
    const buf: array<bv8>
    const size: nat
    var bit: nat
    var overflow: bool

    constructor (buf: array<bv8>, size: nat)
      requires size <= buf.Length
      ensures this.buf == buf && this.size == size && Cursor() == Cur(0, false)
    {
      this.buf := buf;
      this.size := size;
      bit := 0;
      overflow := false;
    }

    ghost predicate Valid()
    {
      size <= buf.Length
    }

    ghost function Bits(): Bits
      reads buf
      requires Valid()
    {
      BitsOf(buf[..size])
    }

    ghost function Cursor(): Cur
      reads this
    {
      Cur(bit, overflow)
    }

    method VbRead(n: nat) returns (v: nat)
      requires Valid()
      modifies this
      ensures (Cursor(), v) == Read(Bits(), old(Cursor()), n)
    {
      hide BitsOf, Wrap;
      ghost var bs := Bits();
      v := 0;
      var left := n;
      while left > 0
        invariant 0 <= left <= n
        invariant ReadOn(bs, Cursor(), left, v) == ReadOn(bs, old(Cursor()), n, 0)
      {
        if bit >= size * 8 {
          overflow := true;
          return 0;
        }
        var b := buf[bit / 8] & Mask(bit % 8) != 0;
        BitIs(buf[..size], bit);
        ghost var c, before := Cursor(), v;
        v := Wrap(2 * v + (if b then 1 else 0));
        bit := bit + 1;
        left := left - 1;
        assert ReadOn(bs, c, left + 1, before) == ReadOn(bs, Cursor(), left, v);
      }
    }

    method VbUe() returns (v: nat)
      requires Valid()
      modifies this
      ensures (Cursor(), v) == Ue(Bits(), old(Cursor()))
    {
      hide BitsOf, Wrap, Read, Shifted;
      ghost var bs := Bits();
      var zeros := 0;
      while !overflow
        invariant zeros <= 32
        invariant CountOn(bs, Cursor(), zeros) == CountOn(bs, old(Cursor()), 0)
        decreases 33 - zeros
      {
        var b := VbRead(1);
        if b != 0 || zeros >= 32 {
          assert (Cursor(), zeros) == CountOn(bs, old(Cursor()), 0);
          break;
        }
        zeros := zeros + 1;
      }
      assert (Cursor(), zeros) == CountOn(bs, old(Cursor()), 0);
      var low := VbRead(zeros);
      v := Wrap(Shifted(zeros) - 1 + low);
    }

    method VbSe() returns (k: int)
      requires Valid()
      modifies this
      ensures (Cursor(), k) == Se(Bits(), old(Cursor()))
    {
      hide Ue, Wrap;
      var v := VbUe();
      k := SignedOf(v);
    }
  }

  lemma BitIs(s: Bytes, k: nat)
    requires k < 8 * |s|
    ensures BitsOf(s)[k] <==> s[k / 8] & Mask(k % 8) != 0
  {
  }
}
