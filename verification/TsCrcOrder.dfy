/** The order of the division: the remainder 0x00a00000 is back after exactly the
    multiples of 2^32 - 1 zero bits.

    The distances after which it is back are the multiples of the least one, which
    divides 2^32 - 1 = 3 * 5 * 17 * 257 * 65537. A prime factor whose quotient does not
    bring the remainder back divides that least distance, and so all five do. */
module TsCrcOrder {
  import opened TsCrcShift
  import opened TsCrcPowers

  // ---- the least such distance

  lemma LeastBack() returns (g: nat)
    ensures 0 < g <= ORDER && Back(g) && forall m | 0 < m < g :: !Back(m)
  {
    BackAtOrder();
    hide Back;
    g := 1;
    while !Back(g)
      invariant 0 < g <= ORDER && forall m | 0 < m < g :: !Back(m)
      decreases ORDER - g
    {
      g := g + 1;
    }
  }

  lemma LeastDivides(g: nat, k: nat)
    requires 0 < g && Back(g) && Back(k) && forall m | 0 < m < g :: !Back(m)
    ensures k % g == 0
  {
    hide Back;
    BackMod(k, g);
  }

  predicate Prime(q: nat) {
    q > 1 && forall d | 1 < d < q :: q % d != 0
  }

  // k such that q divides g * k
  predicate Kills(q: nat, g: nat, k: nat)
    requires q > 0
  {
    g * k % q == 0
  }

  lemma ModMinus(a: nat, b: nat, c: nat, q: nat)
    requires q > 0 && a % q == 0 && b % q == 0 && b * c <= a
    ensures (a - b * c) % q == 0
  {
    assert a == a / q * q && b == b / q * q;
    assert b * c == b / q * c * q;
    var x := a / q - b / q * c;
    assert a - b * c == x * q;
    assert x >= 0;
    MultipleIs(x, q);
  }

  lemma MultipleIs(c: nat, q: nat)
    requires q > 0
    ensures c * q % q == 0 && q * c % q == 0
  {
    ModIs(c * q, q, c, 0);
    assert q * c == c * q;
  }

  lemma KillsMod(q: nat, g: nat, k: nat, m: nat)
    requires q > 0 && m > 0 && Kills(q, g, k) && Kills(q, g, m)
    ensures Kills(q, g, k % m)
  {
    var c := k / m;
    assert k == c * m + k % m;
    assert g * k == g * (c * m) + g * (k % m);
    assert g * (c * m) == g * m * c;
    ModMinus(g * k, g * m, c, q);
  }

  lemma LeastKills(q: nat, g: nat) returns (m: nat)
    requires q > 0
    ensures 0 < m <= q && Kills(q, g, m) && forall k | 0 < k < m :: !Kills(q, g, k)
  {
    MultipleIs(g, q);
    hide Kills;
    assert Kills(q, g, q) by {
      KillsSelf(q, g);
    }
    m := 1;
    while !Kills(q, g, m)
      invariant 0 < m <= q && forall k | 0 < k < m :: !Kills(q, g, k)
      decreases q - m
    {
      m := m + 1;
    }
  }

  lemma KillsSelf(q: nat, g: nat)
    requires q > 0
    ensures Kills(q, g, q)
  {
    MultipleIs(g, q);
  }

  // A prime that divides a product divides one of the factors.
  lemma PrimeSplits(q: nat, g: nat, r: nat)
    requires Prime(q) && Kills(q, g, r) && r % q != 0
    ensures g % q == 0
  {
    var m := LeastKills(q, g);
    KillsSelf(q, g);
    KillsMod(q, g, q, m);
    KillsMod(q, g, r, m);
    hide Kills;
    assert q % m == 0 && r % m == 0;
    PrimeDivisor(q, m);
    if m == 1 {
      KillsOne(q, g);
    }
  }

  lemma PrimeDivisor(q: nat, m: nat)
    requires Prime(q) && 0 < m <= q && q % m == 0
    ensures m == 1 || m == q
  {
  }

  lemma KillsOne(q: nat, g: nat)
    requires q > 0 && Kills(q, g, 1)
    ensures g % q == 0
  {
  }

  // ---- the five primes

  predicate NoDivisor(n: nat, lo: nat, hi: nat)
    decreases hi
  {
    hi < lo || hi < 2 || (n % hi != 0 && NoDivisor(n, lo, hi - 1))
  }

  lemma {:induction false} NoDivisorAt(n: nat, lo: nat, hi: nat, d: nat)
    requires NoDivisor(n, lo, hi) && 2 <= d && lo <= d <= hi
    ensures n % d != 0
    decreases hi
  {
    if d < hi {
      NoDivisorAt(n, lo, hi - 1, d);
    }
  }

  // A number without divisors up to its root is a prime.
  lemma PrimeBy(n: nat, s: nat)
    requires n > 1 && NoDivisor(n, 2, s) && (s + 1) * (s + 1) > n
    ensures Prime(n)
  {
    forall d | 1 < d < n
      ensures n % d != 0
    {
      if n % d == 0 {
        var c := n / d;
        assert n == c * d;
        if d <= s {
          NoDivisorAt(n, 2, s, d);
        } else {
          SmallFactor(n, c, d, s);
          assert n == d * c;
          MultipleIs(d, c);
          NoDivisorAt(n, 2, s, c);
        }
      }
    }
  }

  lemma SmallFactor(n: nat, c: nat, d: nat, s: nat)
    requires n == c * d && 1 < d < n && d > s && (s + 1) * (s + 1) > n
    ensures 2 <= c <= s
  {
    Grows(c, d, s);
    Small(c, d);
  }

  lemma Grows(c: nat, d: nat, s: nat)
    requires d > s
    ensures c > s ==> c * d >= (s + 1) * (s + 1)
  {
    if c > s {
      assert c * d >= (s + 1) * d;
      assert (s + 1) * d >= (s + 1) * (s + 1);
    }
  }

  lemma Small(c: nat, d: nat)
    ensures c < 2 ==> c * d <= d
  {
    if c == 1 {
      assert c * d == d;
    }
  }

  lemma {:induction false} NoDivisorJoin(n: nat, lo: nat, mid: nat, hi: nat)
    requires lo <= mid <= hi && NoDivisor(n, lo, mid) && NoDivisor(n, mid + 1, hi)
    ensures NoDivisor(n, lo, hi)
    decreases hi
  {
    if mid < hi {
      NoDivisorJoin(n, lo, mid, hi - 1);
    }
  }

  lemma NoDivisors0()
    ensures NoDivisor(65537, 2, 16)
  {
  }

  lemma NoDivisors1()
    ensures NoDivisor(65537, 17, 32)
  {
  }

  lemma NoDivisors2()
    ensures NoDivisor(65537, 33, 48)
  {
  }

  lemma NoDivisors3()
    ensures NoDivisor(65537, 49, 64)
  {
  }

  lemma NoDivisors4()
    ensures NoDivisor(65537, 65, 80)
  {
  }

  lemma NoDivisors5()
    ensures NoDivisor(65537, 81, 96)
  {
  }

  lemma NoDivisors6()
    ensures NoDivisor(65537, 97, 112)
  {
  }

  lemma NoDivisors7()
    ensures NoDivisor(65537, 113, 128)
  {
  }

  lemma NoDivisors8()
    ensures NoDivisor(65537, 129, 144)
  {
  }

  lemma NoDivisors9()
    ensures NoDivisor(65537, 145, 160)
  {
  }

  lemma NoDivisors10()
    ensures NoDivisor(65537, 161, 176)
  {
  }

  lemma NoDivisors11()
    ensures NoDivisor(65537, 177, 192)
  {
  }

  lemma NoDivisors12()
    ensures NoDivisor(65537, 193, 208)
  {
  }

  lemma NoDivisors13()
    ensures NoDivisor(65537, 209, 224)
  {
  }

  lemma NoDivisors14()
    ensures NoDivisor(65537, 225, 240)
  {
  }

  lemma NoDivisors15()
    ensures NoDivisor(65537, 241, 256)
  {
  }

  lemma LargePrime()
    ensures Prime(65537)
  {
    hide NoDivisor, Prime;
    NoDivisors0();
    NoDivisors1();
    NoDivisors2();
    NoDivisors3();
    NoDivisors4();
    NoDivisors5();
    NoDivisors6();
    NoDivisors7();
    NoDivisors8();
    NoDivisors9();
    NoDivisors10();
    NoDivisors11();
    NoDivisors12();
    NoDivisors13();
    NoDivisors14();
    NoDivisors15();
    NoDivisorJoin(65537, 2, 16, 32);
    NoDivisorJoin(65537, 2, 32, 48);
    NoDivisorJoin(65537, 2, 48, 64);
    NoDivisorJoin(65537, 2, 64, 80);
    NoDivisorJoin(65537, 2, 80, 96);
    NoDivisorJoin(65537, 2, 96, 112);
    NoDivisorJoin(65537, 2, 112, 128);
    NoDivisorJoin(65537, 2, 128, 144);
    NoDivisorJoin(65537, 2, 144, 160);
    NoDivisorJoin(65537, 2, 160, 176);
    NoDivisorJoin(65537, 2, 176, 192);
    NoDivisorJoin(65537, 2, 192, 208);
    NoDivisorJoin(65537, 2, 208, 224);
    NoDivisorJoin(65537, 2, 224, 240);
    NoDivisorJoin(65537, 2, 240, 256);
    PrimeBy(65537, 256);
  }

  lemma SmallPrimes()
    ensures Prime(3) && Prime(5) && Prime(17) && Prime(257)
  {
    hide Prime;
    PrimeBy(3, 1);
    PrimeBy(5, 2);
    PrimeBy(17, 4);
    PrimeBy(257, 16);
  }

  // ---- the order

  // A prime factor of the order, with a quotient that does not bring the remainder back,
  // divides the least distance that does.
  lemma FactorDivides(g: nat, q: nat, k: nat)
    requires 0 < g && Back(g) && ORDER % g == 0
    requires Prime(q) && q * k == ORDER && !Back(k)
    ensures g % q == 0
  {
    var r := ORDER / g;
    assert ORDER == g * r;
    hide Back, Prime;
    if r % q == 0 {
      var c := r / q;
      assert r == q * c;
      assert g * (q * c) == q * (g * c);
      SameFactor(q, g * c, k);
      BackTimes(g, c);
    }
    OrderKilled(g, q, k, r);
    PrimePositive(q);
    if r % q != 0 {
      PrimeSplits(q, g, r);
    }
  }

  lemma PrimePositive(q: nat)
    requires Prime(q)
    ensures q > 1
  {
  }

  lemma SameFactor(q: nat, a: nat, b: nat)
    requires q > 0 && q * a == q * b
    ensures a == b
  {
  }

  lemma OrderKilled(g: nat, q: nat, k: nat, r: nat)
    requires q > 0 && q * k == g * r
    ensures Kills(q, g, r)
  {
    assert g * r == k * q;
    MultipleIs(k, q);
  }

  // A prime joins the factors of g.
  lemma Joins(g: nat, m: nat, q: nat, mq: nat)
    requires m > 0 && q > 0 && mq == m * q
    requires g % m == 0 && g % q == 0 && Prime(q) && m % q != 0
    ensures g % mq == 0
  {
    hide Prime;
    var a := g / m;
    assert g == a * m;
    assert Kills(q, a, m);
    PrimeSplits(q, a, m);
    var h := a / q;
    assert a == q * h;
    assert q * h * m == h * mq;
    MultipleIs(h, mq);
  }

  lemma AllFactors(g: nat)
    requires g % 3 == 0 && g % 5 == 0 && g % 17 == 0 && g % 257 == 0 && g % 65537 == 0
    ensures g % ORDER == 0
  {
    SmallPrimes();
    LargePrime();
    hide Prime;
    Joins(g, 3, 5, 15);
    Joins(g, 15, 17, 255);
    Joins(g, 255, 257, 65535);
    Joins(g, 65535, 65537, ORDER);
  }

  lemma OrderFactors(g: nat)
    requires 0 < g && Back(g) && ORDER % g == 0
    ensures g % ORDER == 0
  {
    hide Back, Prime;
    SmallPrimes();
    LargePrime();
    Quotients();
    FactorDivides(g, 3, 0x5555_5555);
    FactorDivides(g, 5, 0x3333_3333);
    FactorDivides(g, 17, 0x0f0f_0f0f);
    FactorDivides(g, 257, 0x00ff_00ff);
    FactorDivides(g, 65537, 0xffff);
    AllFactors(g);
  }

  /** The remainder 0x00a00000 is back after k zero bits if and only if k is a multiple
      of 2^32 - 1. */
  lemma BackAfter(k: nat)
    ensures Back(k) <==> k % ORDER == 0
  {
    hide Back;
    var g := LeastBack();
    BackAtOrder();
    LeastDivides(g, ORDER);
    OrderFactors(g);
    if Back(k) {
      LeastDivides(g, k);
      Transitive(k, g, ORDER);
    }
    if k % ORDER == 0 {
      assert k == ORDER * (k / ORDER);
      BackTimes(ORDER, k / ORDER);
    }
  }

  lemma Transitive(k: nat, g: nat, n: nat)
    requires g > 0 && n > 0 && k % g == 0 && g % n == 0
    ensures k % n == 0
  {
    var a, b := k / g, g / n;
    assert k == a * g && g == b * n;
    assert a * (b * n) == a * b * n;
    MultipleIs(a * b, n);
  }

  // ---- whole bytes

  function TurnsEight(n: nat, v: bv32): bv32 {
    if n == 0 then v else ShiftEight(TurnsEight(n - 1, v))
  }

  lemma EightTurns(v: bv32)
    ensures ShiftEight(v) == Turns(8, v)
  {
    hide ShiftOne;
    assert Turns(0, v) == v;
    assert Turns(1, v) == ShiftOne(v);
    assert Turns(2, v) == ShiftOne(Turns(1, v));
    assert Turns(3, v) == ShiftOne(Turns(2, v));
    assert Turns(4, v) == ShiftOne(Turns(3, v));
    assert Turns(5, v) == ShiftOne(Turns(4, v));
    assert Turns(6, v) == ShiftOne(Turns(5, v));
    assert Turns(7, v) == ShiftOne(Turns(6, v));
  }

  lemma {:induction false} BytesAreBits(n: nat, v: bv32)
    ensures TurnsEight(n, v) == Turns(8 * n, v)
  {
    hide ShiftEight, Turns;
    if n == 0 {
      NoTurns(v);
    } else {
      BytesAreBits(n - 1, v);
      EightTurns(Turns(8 * (n - 1), v));
      TurnsAdd(8, 8 * (n - 1), v);
    }
  }

  lemma NoTurns(v: bv32)
    ensures Turns(0, v) == v
  {
  }

  /** The remainder is back after n zero bytes if and only if n is a multiple of
      2^32 - 1. */
  lemma BackAfterBytes(n: nat)
    ensures TurnsEight(n, FAULT) == FAULT <==> n % ORDER == 0
  {
    hide TurnsEight, Turns;
    BytesAreBits(n, FAULT);
    BackAfter(8 * n);
    EightIsCoprime(n);
  }

  lemma EightIsCoprime(n: nat)
    ensures 8 * n % ORDER == 0 <==> n % ORDER == 0
  {
    if 8 * n % ORDER == 0 {
      var h := 8 * n / ORDER;
      assert 8 * n == ORDER * h;
      assert h % 8 == 0;
      assert n == ORDER * (h / 8);
      MultipleIs(h / 8, ORDER);
    }
    if n % ORDER == 0 {
      assert 8 * n == 8 * (n / ORDER) * ORDER;
      MultipleIs(8 * (n / ORDER), ORDER);
    }
  }
}
