/** Powers of x modulo 0x04C11DB7, the polynomial of the division.

    `Mul` multiplies two remainders as polynomials, so that turning n times is
    multiplying by x^n. Squaring x 32 times gives x again, so 2^32 - 1 turns bring every
    remainder back; and for none of its prime factors 3, 5, 17, 257 and 65537 does the
    quotient bring 0x00a00000 back. */
module TsCrcPowers {
  import opened TsCrcShift

  const FAULT: bv32 := 0x00a0_0000

  const ORDER: nat := 0xffff_ffff

  // ---- multiplication

  function Term(v: bv32, m: bv32, w: bv32): bv32 {
    if v & m != 0 then w else 0
  }

  function ShiftFour(w: bv32): bv32 {
    ShiftOne(ShiftOne(ShiftOne(ShiftOne(w))))
  }

  function Plus(a: bv32, b: bv32): bv32 {
    a ^ b
  }

  function AllFour(a: bv32, b: bv32, c: bv32, d: bv32): bv32 {
    Plus(Plus(a, b), Plus(c, d))
  }

  function Quad(v: bv32, w: bv32): bv32 {
    AllFour(Term(v, 1, w), Term(v, 2, ShiftOne(w)), Term(v, 4, ShiftOne(ShiftOne(w))),
            Term(v, 8, ShiftOne(ShiftOne(ShiftOne(w)))))
  }

  function Half(v: bv32, w: bv32): bv32 {
    AllFour(Quad(v, w), Quad(v >> 4, ShiftFour(w)), Quad(v >> 8, ShiftFour(ShiftFour(w))),
            Quad(v >> 12, ShiftFour(ShiftFour(ShiftFour(w)))))
  }

  // The bits of v select what is added up of w, shifted
  function Mul(v: bv32, w: bv32): bv32 {
    Plus(Half(v, w), Half(v >> 16, ShiftFour(ShiftFour(ShiftFour(ShiftFour(w))))))
  }

  lemma ShiftAdd(x: bv32, y: bv32)
    ensures ShiftOne(Plus(x, y)) == Plus(ShiftOne(x), ShiftOne(y))
  {
    hide ShiftOne;
    ShiftXor(x, y);
  }

  lemma ShiftAllFour(a: bv32, b: bv32, c: bv32, d: bv32)
    ensures ShiftOne(AllFour(a, b, c, d)) == AllFour(ShiftOne(a), ShiftOne(b), ShiftOne(c), ShiftOne(d))
  {
    hide ShiftOne, Plus;
    ShiftAdd(Plus(a, b), Plus(c, d));
    ShiftAdd(a, b);
    ShiftAdd(c, d);
  }

  lemma TermShift(v: bv32, m: bv32, w: bv32)
    ensures ShiftOne(Term(v, m, w)) == Term(v, m, ShiftOne(w))
  {
    ShiftOneZero(0);
    hide ShiftOne;
  }

  lemma QuadShift(v: bv32, w: bv32)
    ensures ShiftOne(Quad(v, w)) == Quad(v, ShiftOne(w))
  {
    hide ShiftOne, Term, AllFour;
    var w1 := ShiftOne(w);
    var w2 := ShiftOne(w1);
    var w3 := ShiftOne(w2);
    TermShift(v, 1, w);
    TermShift(v, 2, w1);
    TermShift(v, 4, w2);
    TermShift(v, 8, w3);
    ShiftAllFour(Term(v, 1, w), Term(v, 2, w1), Term(v, 4, w2), Term(v, 8, w3));
  }

  lemma FourShift(w: bv32)
    ensures ShiftOne(ShiftFour(w)) == ShiftFour(ShiftOne(w))
  {
    hide ShiftOne;
  }

  lemma HalfShift(v: bv32, w: bv32)
    ensures ShiftOne(Half(v, w)) == Half(v, ShiftOne(w))
  {
    hide ShiftOne, Quad, ShiftFour, AllFour;
    var w4 := ShiftFour(w);
    var w8 := ShiftFour(w4);
    var w12 := ShiftFour(w8);
    FourShift(w);
    FourShift(w4);
    FourShift(w8);
    QuadShift(v, w);
    QuadShift(v >> 4, w4);
    QuadShift(v >> 8, w8);
    QuadShift(v >> 12, w12);
    ShiftAllFour(Quad(v, w), Quad(v >> 4, w4), Quad(v >> 8, w8), Quad(v >> 12, w12));
  }

  /** Multiplication goes through a turn. */
  lemma MulShift(v: bv32, w: bv32)
    ensures ShiftOne(Mul(v, w)) == Mul(v, ShiftOne(w))
  {
    hide ShiftOne, Half, ShiftFour, Plus;
    var w4 := ShiftFour(w);
    var w8 := ShiftFour(w4);
    var w12 := ShiftFour(w8);
    FourShift(w);
    FourShift(w4);
    FourShift(w8);
    FourShift(w12);
    HalfShift(v, w);
    HalfShift(v >> 16, ShiftFour(w12));
    ShiftAdd(Half(v, w), Half(v >> 16, ShiftFour(w12)));
  }

  // ---- turning n times

  function Turns(n: nat, v: bv32): bv32 {
    if n == 0 then v else ShiftOne(Turns(n - 1, v))
  }

  lemma {:induction false} TurnsAdd(m: nat, n: nat, v: bv32)
    ensures Turns(m + n, v) == Turns(m, Turns(n, v))
  {
    hide ShiftOne;
    if m > 0 {
      TurnsAdd(m - 1, n, v);
    }
  }

  // 1 is neutral for v.
  predicate Own(v: bv32) {
    Mul(v, 1) == v
  }

  // Turning v is multiplying it by what 1 turns to.
  lemma {:induction false} TurnsMul(n: nat, v: bv32)
    requires Own(v)
    ensures Turns(n, v) == Mul(v, Turns(n, 1))
  {
    hide ShiftOne, Mul;
    if n > 0 {
      TurnsMul(n - 1, v);
      MulShift(v, Turns(n - 1, 1));
    }
  }

  predicate Power(n: nat, t: bv32) {
    Turns(n, 1) == t
  }

  predicate Product(t: bv32, s: bv32, u: bv32) {
    Mul(t, s) == u && Own(t)
  }

  lemma PowerMul(m: nat, s: bv32, n: nat, t: bv32, u: bv32)
    requires Power(m, s) && Power(n, t) && Product(t, s, u)
    ensures Power(m + n, u)
  {
    hide Turns, Mul;
    TurnsAdd(m, n, 1);
    TurnsMul(m, t);
  }

  lemma Injective(x: bv32, y: bv32)
    requires ShiftOne(x) == ShiftOne(y)
    ensures x == y
  {
    hide *;
    ShiftAdd(x, y);
    ShiftOneZero(Plus(x, y));
    PlusZero(x, y);
    PlusZero(ShiftOne(x), ShiftOne(y));
  }

  lemma PlusZero(x: bv32, y: bv32)
    ensures Plus(x, y) == 0 <==> x == y
  {
    hide *;
    PlusBack(x, y);
    PlusNone(y);
    PlusSelf(x);
  }

  lemma PlusBack(x: bv32, y: bv32)
    ensures Plus(Plus(x, y), y) == x
  {
  }

  lemma PlusNone(y: bv32)
    ensures Plus(0, y) == y
  {
  }

  lemma PlusSelf(x: bv32)
    ensures Plus(x, x) == 0
  {
  }

  lemma {:induction false} TurnsInjective(n: nat, x: bv32, y: bv32)
    requires Turns(n, x) == Turns(n, y)
    ensures x == y
  {
    hide ShiftOne;
    if n > 0 {
      Injective(Turns(n - 1, x), Turns(n - 1, y));
      TurnsInjective(n - 1, x, y);
    }
  }

  // ---- the powers x^1, x^2, x^4 and so on

  function Two(j: nat): nat {
    if j == 0 then 1 else 2 * Two(j - 1)
  }

  lemma Square0()
    ensures Product(0x2, 0x2, 0x4)
  {
  }

  lemma Square1()
    ensures Product(0x4, 0x4, 0x10)
  {
  }

  lemma Square2()
    ensures Product(0x10, 0x10, 0x00000100)
  {
  }

  lemma Square3()
    ensures Product(0x00000100, 0x00000100, 0x00010000)
  {
  }

  lemma Square4()
    ensures Product(0x00010000, 0x00010000, 0x04c11db7)
  {
  }

  lemma Square5()
    ensures Product(0x04c11db7, 0x04c11db7, 0x490d678d)
  {
  }

  lemma Square6()
    ensures Product(0x490d678d, 0x490d678d, 0xe8a45605)
  {
  }

  lemma Square7()
    ensures Product(0xe8a45605, 0xe8a45605, 0x75be46b7)
  {
  }

  lemma Square8()
    ensures Product(0x75be46b7, 0x75be46b7, 0xe6228b11)
  {
  }

  lemma Square9()
    ensures Product(0xe6228b11, 0xe6228b11, 0x567fddeb)
  {
  }

  lemma Square10()
    ensures Product(0x567fddeb, 0x567fddeb, 0x88fe2237)
  {
  }

  lemma Square11()
    ensures Product(0x88fe2237, 0x88fe2237, 0x0e857e71)
  {
  }

  lemma Square12()
    ensures Product(0x0e857e71, 0x0e857e71, 0x7001e426)
  {
  }

  lemma Square13()
    ensures Product(0x7001e426, 0x7001e426, 0x075de2b2)
  {
  }

  lemma Square14()
    ensures Product(0x075de2b2, 0x075de2b2, 0xf12a7f90)
  {
  }

  lemma Square15()
    ensures Product(0xf12a7f90, 0xf12a7f90, 0xf0b4a1c1)
  {
  }

  lemma Square16()
    ensures Product(0xf0b4a1c1, 0xf0b4a1c1, 0x58f46c0c)
  {
  }

  lemma Square17()
    ensures Product(0x58f46c0c, 0x58f46c0c, 0xc3395ade)
  {
  }

  lemma Square18()
    ensures Product(0xc3395ade, 0xc3395ade, 0x96837f8c)
  {
  }

  lemma Square19()
    ensures Product(0x96837f8c, 0x96837f8c, 0x544037f9)
  {
  }

  lemma Square20()
    ensures Product(0x544037f9, 0x544037f9, 0x23b7b136)
  {
  }

  lemma Square21()
    ensures Product(0x23b7b136, 0x23b7b136, 0xb2e16ba8)
  {
  }

  lemma Square22()
    ensures Product(0xb2e16ba8, 0xb2e16ba8, 0x725e7bfa)
  {
  }

  lemma Square23()
    ensures Product(0x725e7bfa, 0x725e7bfa, 0xec709b5d)
  {
  }

  lemma Square24()
    ensures Product(0xec709b5d, 0xec709b5d, 0xf77a7274)
  {
  }

  lemma Square25()
    ensures Product(0xf77a7274, 0xf77a7274, 0x2845d572)
  {
  }

  lemma Square26()
    ensures Product(0x2845d572, 0x2845d572, 0x034e2515)
  {
  }

  lemma Square27()
    ensures Product(0x034e2515, 0x034e2515, 0x79695942)
  {
  }

  lemma Square28()
    ensures Product(0x79695942, 0x79695942, 0x540cb128)
  {
  }

  lemma Square29()
    ensures Product(0x540cb128, 0x540cb128, 0x0b65d023)
  {
  }

  lemma Square30()
    ensures Product(0x0b65d023, 0x0b65d023, 0x3c344723)
  {
  }

  lemma Square31()
    ensures Product(0x3c344723, 0x3c344723, 0x2)
  {
  }

  lemma PowerNext(j: nat, t: bv32, u: bv32)
    requires Power(Two(j), t) && Product(t, t, u)
    ensures Power(Two(j + 1), u)
  {
    PowerMul(Two(j), t, Two(j), t, u);
    TwoNext(j);
    hide Two, Power, Product;
  }

  lemma TwoNext(j: nat)
    ensures Two(j + 1) == Two(j) + Two(j)
  {
  }

  lemma PowerOne()
    ensures Power(Two(0), 0x2)
  {
    assert Turns(0, 1) == 1;
  }

  // x to the powers 2^0, 2^4 and so on to 2^16
  lemma PowersLow()
    ensures Power(Two(0), 0x2)
    ensures Power(Two(4), 0x00010000)
    ensures Power(Two(8), 0x75be46b7)
    ensures Power(Two(12), 0x0e857e71)
    ensures Power(Two(16), 0xf0b4a1c1)
  {
    hide *;
    PowerOne();
    Square0();
    Square1();
    Square2();
    Square3();
    Square4();
    Square5();
    Square6();
    Square7();
    Square8();
    Square9();
    Square10();
    Square11();
    Square12();
    Square13();
    Square14();
    Square15();
    PowerNext(0, 0x2, 0x4);
    PowerNext(1, 0x4, 0x10);
    PowerNext(2, 0x10, 0x00000100);
    PowerNext(3, 0x00000100, 0x00010000);
    PowerNext(4, 0x00010000, 0x04c11db7);
    PowerNext(5, 0x04c11db7, 0x490d678d);
    PowerNext(6, 0x490d678d, 0xe8a45605);
    PowerNext(7, 0xe8a45605, 0x75be46b7);
    PowerNext(8, 0x75be46b7, 0xe6228b11);
    PowerNext(9, 0xe6228b11, 0x567fddeb);
    PowerNext(10, 0x567fddeb, 0x88fe2237);
    PowerNext(11, 0x88fe2237, 0x0e857e71);
    PowerNext(12, 0x0e857e71, 0x7001e426);
    PowerNext(13, 0x7001e426, 0x075de2b2);
    PowerNext(14, 0x075de2b2, 0xf12a7f90);
    PowerNext(15, 0xf12a7f90, 0xf0b4a1c1);
  }

  // ... and to 2^32, which is x again
  lemma PowersHigh()
    ensures Power(Two(20), 0x544037f9)
    ensures Power(Two(24), 0xec709b5d)
    ensures Power(Two(28), 0x79695942)
    ensures Power(Two(32), 0x2)
  {
    hide *;
    PowersLow();
    Square16();
    Square17();
    Square18();
    Square19();
    Square20();
    Square21();
    Square22();
    Square23();
    Square24();
    Square25();
    Square26();
    Square27();
    Square28();
    Square29();
    Square30();
    Square31();
    PowerNext(16, 0xf0b4a1c1, 0x58f46c0c);
    PowerNext(17, 0x58f46c0c, 0xc3395ade);
    PowerNext(18, 0xc3395ade, 0x96837f8c);
    PowerNext(19, 0x96837f8c, 0x544037f9);
    PowerNext(20, 0x544037f9, 0x23b7b136);
    PowerNext(21, 0x23b7b136, 0xb2e16ba8);
    PowerNext(22, 0xb2e16ba8, 0x725e7bfa);
    PowerNext(23, 0x725e7bfa, 0xec709b5d);
    PowerNext(24, 0xec709b5d, 0xf77a7274);
    PowerNext(25, 0xf77a7274, 0x2845d572);
    PowerNext(26, 0x2845d572, 0x034e2515);
    PowerNext(27, 0x034e2515, 0x79695942);
    PowerNext(28, 0x79695942, 0x540cb128);
    PowerNext(29, 0x540cb128, 0x0b65d023);
    PowerNext(30, 0x0b65d023, 0x3c344723);
    PowerNext(31, 0x3c344723, 0x2);
  }

  // ---- the powers that the five quotients are made of

  lemma Products0a()
    ensures Product(0x75be46b7, 0x2, 0xeb7c8d6e)
  {
  }

  lemma Products0b()
    ensures Product(0xf0b4a1c1, 0xeb7c8d6e, 0x424b191d)
  {
  }

  lemma Products0c()
    ensures Product(0xec709b5d, 0x424b191d, 0x85dad68c)
  {
  }

  lemma Products0d()
    ensures Product(0x0e857e71, 0x00010000, 0x6f267771)
  {
  }

  lemma Products0e()
    ensures Product(0x544037f9, 0x6f267771, 0x624721fa)
  {
  }

  lemma Products0f()
    ensures Product(0x79695942, 0x624721fa, 0x053c1430)
  {
  }

  lemma Products0()
    ensures Product(0x75be46b7, 0x2, 0xeb7c8d6e)
    ensures Product(0xf0b4a1c1, 0xeb7c8d6e, 0x424b191d)
    ensures Product(0xec709b5d, 0x424b191d, 0x85dad68c)
    ensures Product(0x0e857e71, 0x00010000, 0x6f267771)
    ensures Product(0x544037f9, 0x6f267771, 0x624721fa)
    ensures Product(0x79695942, 0x624721fa, 0x053c1430)
  {
    hide *;
    Products0a();
    Products0b();
    Products0c();
    Products0d();
    Products0e();
    Products0f();
  }

  lemma Products1a()
    ensures Product(0x053c1430, 0x85dad68c, 0x80e6c2bc)
  {
  }

  lemma Products1b()
    ensures Product(0x80e6c2bc, 0x80e6c2bc, 0xca31ae5f)
  {
  }

  lemma Products1c()
    ensures Product(0xca31ae5f, 0xca31ae5f, 0x80e6c2bd)
  {
  }

  lemma Products1d()
    ensures Product(0x80e6c2bc, 0x80e6c2bd, 0x4ad76ce3)
  {
  }

  lemma Products1e()
    ensures Product(0xf0b4a1c1, 0x2, 0xe5a85e35)
  {
  }

  lemma Products1f()
    ensures Product(0xec709b5d, 0x75be46b7, 0x58ab0c62)
  {
  }

  lemma Products1()
    ensures Product(0x053c1430, 0x85dad68c, 0x80e6c2bc)
    ensures Product(0x80e6c2bc, 0x80e6c2bc, 0xca31ae5f)
    ensures Product(0xca31ae5f, 0xca31ae5f, 0x80e6c2bd)
    ensures Product(0x80e6c2bc, 0x80e6c2bd, 0x4ad76ce3)
    ensures Product(0xf0b4a1c1, 0x2, 0xe5a85e35)
    ensures Product(0xec709b5d, 0x75be46b7, 0x58ab0c62)
  {
    hide *;
    Products1a();
    Products1b();
    Products1c();
    Products1d();
    Products1e();
    Products1f();
  }

  // The remainder times x to the power n
  predicate Reaches(n: nat, r: bv32) {
    Turns(n, FAULT) == r
  }

  lemma ReachesBy(n: nat, t: bv32, r: bv32)
    requires Power(n, t) && Product(FAULT, t, r)
    ensures Reaches(n, r)
  {
    hide Turns, Mul;
    TurnsMul(n, FAULT);
  }

  lemma FaultProductsa()
    ensures Product(FAULT, 0x4ad76ce3, 0x6e654a4b)
  {
  }

  lemma FaultProductsb()
    ensures Product(FAULT, 0x80e6c2bd, 0x2114f383)
  {
  }

  lemma FaultProductsc()
    ensures Product(FAULT, 0x80e6c2bc, 0x21b4f383)
  {
  }

  lemma FaultProductsd()
    ensures Product(FAULT, 0x053c1430, 0xba167be3)
  {
  }

  lemma FaultProductse()
    ensures Product(FAULT, 0x85dad68c, 0x9ba28860)
  {
  }

  lemma FaultProductsf()
    ensures Product(FAULT, 0x58ab0c62, 0x19f6cd45)
  {
  }

  lemma FaultProductsg()
    ensures Product(FAULT, 0xe5a85e35, 0xa3d36580)
  {
  }

  lemma FaultProductsh()
    ensures Product(FAULT, 0xf0b4a1c1, 0x51e9b2c0)
  {
  }

  lemma FaultProductsi()
    ensures Product(FAULT, 0x2, 0x01400000)
  {
  }

  lemma FaultProductsj()
    ensures Product(FAULT, 0x1, FAULT)
  {
  }

  lemma FaultProducts()
    ensures Product(FAULT, 0x4ad76ce3, 0x6e654a4b)
    ensures Product(FAULT, 0x80e6c2bd, 0x2114f383)
    ensures Product(FAULT, 0x80e6c2bc, 0x21b4f383)
    ensures Product(FAULT, 0x053c1430, 0xba167be3)
    ensures Product(FAULT, 0x85dad68c, 0x9ba28860)
    ensures Product(FAULT, 0x58ab0c62, 0x19f6cd45)
    ensures Product(FAULT, 0xe5a85e35, 0xa3d36580)
    ensures Product(FAULT, 0xf0b4a1c1, 0x51e9b2c0)
    ensures Product(FAULT, 0x2, 0x01400000)
    ensures Product(FAULT, 0x1, FAULT)
  {
    hide *;
    FaultProductsa();
    FaultProductsb();
    FaultProductsc();
    FaultProductsd();
    FaultProductse();
    FaultProductsf();
    FaultProductsg();
    FaultProductsh();
    FaultProductsi();
    FaultProductsj();
  }

  // The exponents 0x01010101, 0x10101010 and 0x11111111
  lemma PowerB() returns (b: nat, c: nat, a: nat)
    ensures b == Two(0) + Two(8) + Two(16) + Two(24) && Power(b, 0x85dad68c)
    ensures c == Two(4) + Two(12) + Two(20) + Two(28) && Power(c, 0x053c1430)
    ensures a == b + c && Power(a, 0x80e6c2bc)
  {
    hide *;
    Products0();
    Products1();
    PowersLow();
    PowersHigh();
    PowerMul(Two(0), 0x2, Two(8), 0x75be46b7, 0xeb7c8d6e);
    PowerMul(Two(0) + Two(8), 0xeb7c8d6e, Two(16), 0xf0b4a1c1, 0x424b191d);
    PowerMul(Two(0) + Two(8) + Two(16), 0x424b191d, Two(24), 0xec709b5d, 0x85dad68c);
    PowerMul(Two(4), 0x00010000, Two(12), 0x0e857e71, 0x6f267771);
    PowerMul(Two(4) + Two(12), 0x6f267771, Two(20), 0x544037f9, 0x624721fa);
    PowerMul(Two(4) + Two(12) + Two(20), 0x624721fa, Two(28), 0x79695942, 0x053c1430);
    b := Two(0) + Two(8) + Two(16) + Two(24);
    c := Two(4) + Two(12) + Two(20) + Two(28);
    a := b + c;
    PowerMul(b, 0x85dad68c, c, 0x053c1430, 0x80e6c2bc);
  }

  // ---- distances after which the remainder is back

  predicate Back(k: nat) {
    Turns(k, FAULT) == FAULT
  }

  // Two distances that lead to different remainders do not differ by one of these.
  lemma NotBack(k: nat, lo: nat, r: bv32, r': bv32)
    requires Reaches(lo + k, r) && Reaches(lo, r') && r != r'
    ensures !Back(k)
  {
    hide Turns;
    TurnsAdd(lo, k, FAULT);
  }

  lemma BackDown(k: nat, m: nat)
    requires m <= k && Back(k) && Back(m)
    ensures Back(k - m)
  {
    hide Turns;
    TurnsAdd(m, k - m, FAULT);
    TurnsInjective(m, Turns(k - m, FAULT), FAULT);
  }

  lemma {:induction false} BackMod(k: nat, m: nat)
    requires m > 0 && Back(k) && Back(m)
    ensures Back(k % m)
    decreases k
  {
    hide Back;
    if k >= m {
      BackDown(k, m);
      BackMod(k - m, m);
      ModDown(k, m);
    }
  }

  lemma ModIs(a: nat, q: nat, c: nat, r: nat)
    requires r < q && a == c * q + r
    ensures a % q == r && a / q == c
  {
    var d := a / q - c;
    assert a == a / q * q + a % q;
    assert d * q == r - a % q;
  }

  lemma ModDown(k: nat, m: nat)
    requires 0 < m <= k
    ensures (k - m) % m == k % m
  {
    var c := k / m;
    assert k == c * m + k % m;
    assert k - m == (c - 1) * m + k % m;
    ModIs(k - m, m, c - 1, k % m);
  }

  lemma {:induction false} BackTimes(m: nat, c: nat)
    requires Back(m)
    ensures Back(m * c)
    decreases c
  {
    hide Turns;
    if c == 0 {
      BackZero();
    } else {
      BackTimes(m, c - 1);
      TurnsAdd(m * (c - 1), m, FAULT);
      assert m * c == m * (c - 1) + m;
    }
  }

  lemma BackZero()
    ensures Back(0)
  {
  }

  lemma BackAtOrder()
    ensures Back(ORDER)
  {
    hide *;
    var n := OrderIsTwo();
    PowersLow();
    PowersHigh();
    PowerDown(n);
    FaultProducts();
    ReachesBy(n, 0x1, FAULT);
    ReachesBack(n);
  }

  lemma OrderIsTwo() returns (n: nat)
    ensures n == ORDER && Two(32) == n + 1
  {
    n := ORDER;
    assert Two(8) == 0x100;
    assert Two(16) == 0x1_0000;
    assert Two(24) == 0x100_0000;
    assert Two(28) == 0x1000_0000;
  }

  lemma PowerDown(n: nat)
    requires Power(n + 1, 0x2)
    ensures Power(n, 0x1)
  {
    TurnsInjective(1, Turns(n, 1), 1);
  }

  lemma ReachesBack(n: nat)
    ensures Reaches(n, FAULT) <==> Back(n)
  {
    hide Turns;
  }

  // None of the quotients by a prime factor brings the remainder back.
  lemma Quotients()
    ensures !Back(0xffff) && !Back(0x00ff_00ff) && !Back(0x0f0f_0f0f) && !Back(0x3333_3333) && !Back(0x5555_5555)
  {
    QuotientsSmall();
    QuotientsLarge();
  }

  lemma QuotientsSmall()
    ensures !Back(0xffff) && !Back(0x00ff_00ff)
  {
    SmallTwos();
    hide *;
    FaultProducts();
    Products1();
    PowersLow();
    PowersHigh();
    PowerMul(Two(0), 0x2, Two(16), 0xf0b4a1c1, 0xe5a85e35);
    PowerMul(Two(8), 0x75be46b7, Two(24), 0xec709b5d, 0x58ab0c62);
    ReachesBy(Two(16), 0xf0b4a1c1, 0x51e9b2c0);
    ReachesBy(Two(0), 0x2, 0x01400000);
    NotBack(0xffff, Two(0), 0x51e9b2c0, 0x01400000);
    ReachesBy(Two(8) + Two(24), 0x58ab0c62, 0x19f6cd45);
    ReachesBy(Two(0) + Two(16), 0xe5a85e35, 0xa3d36580);
    NotBack(0x00ff_00ff, Two(0) + Two(16), 0x19f6cd45, 0xa3d36580);
  }

  lemma SmallTwos()
    ensures Two(16) == Two(0) + 0xffff
    ensures Two(8) + Two(24) == Two(0) + Two(16) + 0x00ff_00ff
  {
    assert Two(8) == 0x100;
    assert Two(16) == 0x1_0000;
  }

  lemma QuotientsLarge()
    ensures !Back(0x0f0f_0f0f) && !Back(0x3333_3333) && !Back(0x5555_5555)
  {
    LargeTwos();
    hide *;
    var b, c, a := PowerB();
    Products1();
    FaultProducts();
    PowerMul(a, 0x80e6c2bc, a, 0x80e6c2bc, 0xca31ae5f);
    PowerMul(a + a, 0xca31ae5f, a + a, 0xca31ae5f, 0x80e6c2bd);
    PowerMul(a + a + (a + a), 0x80e6c2bd, a, 0x80e6c2bc, 0x4ad76ce3);
    ReachesBy(c, 0x053c1430, 0xba167be3);
    ReachesBy(b, 0x85dad68c, 0x9ba28860);
    NotBack(0x0f0f_0f0f, b, 0xba167be3, 0x9ba28860);
    ReachesBy(a + a + (a + a), 0x80e6c2bd, 0x2114f383);
    ReachesBy(a, 0x80e6c2bc, 0x21b4f383);
    NotBack(0x3333_3333, a, 0x2114f383, 0x21b4f383);
    PowerZero();
    FaultIs();
    ReachesBy(0, 0x1, FAULT);
    ReachesBy(a + a + (a + a) + a, 0x4ad76ce3, 0x6e654a4b);
    NotBack(0x5555_5555, 0, 0x6e654a4b, FAULT);
  }

  lemma FaultIs()
    ensures FAULT == 0x00a0_0000
  {
  }

  lemma PowerZero()
    ensures Power(0, 0x1)
  {
  }

  lemma LargeTwos()
    ensures var b, c := Two(0) + Two(8) + Two(16) + Two(24), Two(4) + Two(12) + Two(20) + Two(28);
            c == b + 0x0f0f_0f0f && 4 * (b + c) == b + c + 0x3333_3333 && 5 * (b + c) == 0x5555_5555
  {
    assert Two(4) == 0x10;
    assert Two(8) == 0x100;
    assert Two(12) == 0x1000;
    assert Two(16) == 0x1_0000;
    assert Two(20) == 0x10_0000;
    assert Two(24) == 0x100_0000;
  }
}
