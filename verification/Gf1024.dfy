// The field GF(1024) in which the Bech32 code is defined: a + b e over GF(32), where e^2 = 9 e + 23.
module Gf1024 {
  import opened Gf32

  datatype Elem = Elem(lo: bv8, hi: bv8)

  const NONE := Elem(0, 0)
  const ONE := Elem(1, 0)
  const E := Elem(0, 1)

  ghost predicate Ok(x: Elem) { x.lo < 32 && x.hi < 32 }

  function Plus(x: Elem, y: Elem): Elem { Elem(XorByte(x.lo, y.lo), XorByte(x.hi, y.hi)) }

  function Scaled(k: bv8, x: Elem): Elem { Elem(Mul(k, x.lo), Mul(k, x.hi)) }

  function TimesE(x: Elem): Elem { Elem(Mul(23, x.hi), XorByte(x.lo, Mul(9, x.hi))) }

  /** x times y, by the two coefficients of y. */
  function Prod(x: Elem, y: Elem): Elem { Plus(Scaled(y.lo, x), Scaled(y.hi, TimesE(x))) }

  // ---------------------------------------------------------------- ranges

  lemma PlusOk(x: Elem, y: Elem)
    requires Ok(x) && Ok(y)
    ensures Ok(Plus(x, y))
  {
    hide XorByte;
    XorSmall(x.lo, y.lo);
    XorSmall(x.hi, y.hi);
  }

  lemma ScaledOk(k: bv8, x: Elem)
    requires k < 32
    ensures Ok(Scaled(k, x))
  {
    hide Mul;
    MulRange(k, x.lo);
    MulRange(k, x.hi);
  }

  lemma TimesEOk(x: Elem)
    requires Ok(x)
    ensures Ok(TimesE(x))
  {
    hide Mul, XorByte;
    MulRange(23, x.hi);
    MulRange(9, x.hi);
    XorSmall(x.lo, Mul(9, x.hi));
  }

  lemma ProdOk(x: Elem, y: Elem)
    requires Ok(x) && Ok(y)
    ensures Ok(Prod(x, y))
  {
    hide Plus, Scaled, TimesE;
    ScaledOk(y.lo, x);
    ScaledOk(y.hi, TimesE(x));
    PlusOk(Scaled(y.lo, x), Scaled(y.hi, TimesE(x)));
  }

  // ---------------------------------------------------------------- addition

  lemma PlusComm(x: Elem, y: Elem)
    ensures Plus(x, y) == Plus(y, x)
  {
    hide XorByte;
    XorComm(x.lo, y.lo);
    XorComm(x.hi, y.hi);
  }

  lemma PlusExchange(x: Elem, y: Elem, z: Elem, w: Elem)
    ensures Plus(Plus(x, y), Plus(z, w)) == Plus(Plus(x, z), Plus(y, w))
  {
    hide XorByte;
    Exchange(x.lo, y.lo, z.lo, w.lo);
    Exchange(x.hi, y.hi, z.hi, w.hi);
  }

  lemma PlusAssoc(x: Elem, y: Elem, z: Elem)
    ensures Plus(Plus(x, y), z) == Plus(x, Plus(y, z))
  {
    hide XorByte;
    XorAssoc(x.lo, y.lo, z.lo);
    XorAssoc(x.hi, y.hi, z.hi);
  }

  lemma PlusSelf(x: Elem, y: Elem)
    ensures Plus(x, x) == NONE && Plus(x, NONE) == x && Plus(NONE, x) == x && (Plus(x, y) == NONE ==> x == y)
  {
    hide XorByte;
    SelfXor(x.lo);
    SelfXor(x.hi);
    XorByteZero(x.lo);
    XorByteZero(x.hi);
    if Plus(x, y) == NONE {
      XorSame(x.lo, x.lo, y.lo);
      XorSame(x.hi, x.hi, y.hi);
    }
  }

  // ---------------------------------------------------------------- scaling

  lemma MulDistributesRight(k: bv8, a: bv8, b: bv8)
    requires k < 32 && a < 32 && b < 32
    ensures Mul(k, XorByte(a, b)) == XorByte(Mul(k, a), Mul(k, b))
  {
    hide Mul, XorByte;
    XorSmall(a, b);
    MulComm(k, XorByte(a, b));
    MulComm(k, a);
    MulComm(k, b);
    MulDistributes(a, b, k);
  }

  lemma ScaledPlus(k: bv8, x: Elem, y: Elem)
    requires k < 32 && Ok(x) && Ok(y)
    ensures Scaled(k, Plus(x, y)) == Plus(Scaled(k, x), Scaled(k, y))
  {
    hide Mul, XorByte;
    MulDistributesRight(k, x.lo, y.lo);
    MulDistributesRight(k, x.hi, y.hi);
  }

  lemma ScaledSum(k: bv8, l: bv8, x: Elem)
    ensures Scaled(XorByte(k, l), x) == Plus(Scaled(k, x), Scaled(l, x))
  {
    hide Mul, XorByte;
    MulDistributes(k, l, x.lo);
    MulDistributes(k, l, x.hi);
  }

  lemma ScaledTwice(k: bv8, l: bv8, x: Elem)
    requires k < 32 && l < 32 && Ok(x)
    ensures Scaled(k, Scaled(l, x)) == Scaled(Mul(k, l), x) && Scaled(k, Scaled(l, x)) == Scaled(l, Scaled(k, x))
  {
    hide Mul;
    MulAssociates(k, l, x.lo);
    MulAssociates(k, l, x.hi);
    MulAssociates(l, k, x.lo);
    MulAssociates(l, k, x.hi);
    MulComm(k, l);
  }

  lemma ScaledSome(k: bv8, x: Elem)
    requires k < 32 && Ok(x)
    ensures Scaled(1, x) == x && Scaled(0, x) == NONE && (Scaled(k, x) == NONE ==> k == 0 || x == NONE)
  {
    hide Mul;
    MulOne(x.lo);
    MulOne(x.hi);
    if Mul(k, x.lo) == 0 { MulZero(k, x.lo); }
    if Mul(k, x.hi) == 0 { MulZero(k, x.hi); }
  }

  // ---------------------------------------------------------------- multiplication by e

  lemma TimesEPlus(x: Elem, y: Elem)
    requires Ok(x) && Ok(y)
    ensures TimesE(Plus(x, y)) == Plus(TimesE(x), TimesE(y))
  {
    hide Mul, XorByte;
    MulDistributesRight(23, x.hi, y.hi);
    MulDistributesRight(9, x.hi, y.hi);
    Exchange(x.lo, y.lo, Mul(9, x.hi), Mul(9, y.hi));
  }

  lemma TimesEScaled(k: bv8, x: Elem)
    requires k < 32 && Ok(x)
    ensures TimesE(Scaled(k, x)) == Scaled(k, TimesE(x))
  {
    hide Mul, XorByte;
    MulSwap(23, k, x.hi);
    MulSwap(9, k, x.hi);
    MulRange(9, x.hi);
    MulDistributesRight(k, x.lo, Mul(9, x.hi));
  }

  lemma MulSwap(k: bv8, l: bv8, a: bv8)
    requires k < 32 && l < 32 && a < 32
    ensures Mul(k, Mul(l, a)) == Mul(l, Mul(k, a))
  {
    hide Mul;
    MulAssociates(k, l, a);
    MulAssociates(l, k, a);
    MulComm(k, l);
  }

  // ---------------------------------------------------------------- multiplication

  lemma ProdPlus(x: Elem, x': Elem, y: Elem)
    requires Ok(x) && Ok(x') && Ok(y)
    ensures Prod(Plus(x, x'), y) == Plus(Prod(x, y), Prod(x', y))
  {
    hide Plus, Scaled, TimesE;
    TimesEPlus(x, x');
    TimesEOk(x);
    TimesEOk(x');
    ScaledPlus(y.lo, x, x');
    ScaledPlus(y.hi, TimesE(x), TimesE(x'));
    PlusExchange(Scaled(y.lo, x), Scaled(y.lo, x'), Scaled(y.hi, TimesE(x)), Scaled(y.hi, TimesE(x')));
  }

  lemma ProdScaled(k: bv8, x: Elem, y: Elem)
    requires k < 32 && Ok(x) && Ok(y)
    ensures Prod(Scaled(k, x), y) == Scaled(k, Prod(x, y))
  {
    hide Plus, Scaled, TimesE;
    TimesEScaled(k, x);
    TimesEOk(x);
    ScaledTwice(y.lo, k, x);
    ScaledTwice(y.hi, k, TimesE(x));
    ScaledOk(y.lo, x);
    ScaledOk(y.hi, TimesE(x));
    ScaledPlus(k, Scaled(y.lo, x), Scaled(y.hi, TimesE(x)));
  }

  lemma ProdE(x: Elem, y: Elem)
    requires Ok(x) && Ok(y)
    ensures Prod(TimesE(x), y) == TimesE(Prod(x, y))
  {
    hide Plus, Scaled, TimesE;
    TimesEOk(x);
    ScaledOk(y.lo, x);
    ScaledOk(y.hi, TimesE(x));
    TimesEPlus(Scaled(y.lo, x), Scaled(y.hi, TimesE(x)));
    TimesEScaled(y.lo, x);
    TimesEScaled(y.hi, TimesE(x));
  }

  lemma ProdExchange(x: Elem, y: Elem, z: Elem)
    requires Ok(x) && Ok(y) && Ok(z)
    ensures Prod(Prod(x, z), y) == Prod(Prod(x, y), z)
  {
    hide Plus, Scaled, TimesE, Prod;
    TimesEOk(x);
    ScaledOk(z.lo, x);
    ScaledOk(z.hi, TimesE(x));
    ProdIs(x, z);
    ProdPlus(Scaled(z.lo, x), Scaled(z.hi, TimesE(x)), y);
    ProdScaled(z.lo, x, y);
    ProdScaled(z.hi, TimesE(x), y);
    ProdE(x, y);
    ProdIs(Prod(x, y), z);
  }

  lemma ProdIs(x: Elem, y: Elem)
    ensures Prod(x, y) == Plus(Scaled(y.lo, x), Scaled(y.hi, TimesE(x)))
  {}

  lemma ProdOne(x: Elem)
    requires Ok(x)
    ensures Prod(x, ONE) == x && Prod(ONE, x) == x && Prod(x, NONE) == NONE && Prod(NONE, x) == NONE && Prod(x, E) == TimesE(x)
  {
    hide Mul, XorByte;
    TimesEOk(x);
    MulOne(x.lo);
    MulOne(x.hi);
    MulOne(TimesE(x).lo);
    MulOne(TimesE(x).hi);
    MulOne(23);
    MulOne(9);
    ZeroScaled(x.lo);
    ZeroScaled(x.hi);
    XorByteZero(0);
    XorByteZero(x.lo);
    XorByteZero(x.hi);
    XorByteZero(1);
    XorByteZero(TimesE(x).lo);
    XorByteZero(TimesE(x).hi);
  }

  lemma ZeroScaled(k: bv8)
    requires k < 32
    ensures Mul(k, 0) == 0 && Mul(k, 1) == k
  {
    hide Mul;
    MulOne(k);
  }

  /** Both sides start from 1: 1 * x * y == 1 * y * x. */
  lemma ProdComm(x: Elem, y: Elem)
    requires Ok(x) && Ok(y)
    ensures Prod(x, y) == Prod(y, x)
  {
    hide Prod;
    ProdOne(x);
    ProdOne(y);
    assert Ok(ONE);
    ProdExchange(ONE, y, x);
  }

  lemma ProdAssoc(x: Elem, y: Elem, z: Elem)
    requires Ok(x) && Ok(y) && Ok(z)
    ensures Prod(Prod(x, y), z) == Prod(x, Prod(y, z))
  {
    hide Prod;
    ProdOk(y, z);
    ProdComm(x, Prod(y, z));
    ProdComm(x, y);
    ProdExchange(y, z, x);
  }

  // ---------------------------------------------------------------- no divisors of zero

  /** The other root of the polynomial that defines e is e + 9. */
  function Conjugate(x: Elem): Elem { Elem(XorByte(x.lo, Mul(9, x.hi)), x.hi) }

  function Norm(x: Elem): bv8 { XorByte(Mul(x.lo, XorByte(x.lo, Mul(9, x.hi))), Mul(23, Mul(x.hi, x.hi))) }

  lemma Inverse(b: bv8) returns (i: bv8)
    requires 0 < b < 32
    ensures i < 32 && Mul(b, i) == 1
  {
    if b == 1 { i := 1; }
    else if b == 2 { i := 20; }
    else if b == 3 { i := 24; }
    else if b == 4 { i := 10; }
    else if b == 5 { i := 8; }
    else if b == 6 { i := 12; }
    else if b == 7 { i := 29; }
    else if b == 8 { i := 5; }
    else if b == 9 { i := 11; }
    else if b == 10 { i := 4; }
    else if b == 11 { i := 9; }
    else if b == 12 { i := 6; }
    else if b == 13 { i := 28; }
    else if b == 14 { i := 26; }
    else if b == 15 { i := 31; }
    else if b == 16 { i := 22; }
    else if b == 17 { i := 18; }
    else if b == 18 { i := 17; }
    else if b == 19 { i := 23; }
    else if b == 20 { i := 2; }
    else if b == 21 { i := 25; }
    else if b == 22 { i := 16; }
    else if b == 23 { i := 19; }
    else if b == 24 { i := 3; }
    else if b == 25 { i := 21; }
    else if b == 26 { i := 14; }
    else if b == 27 { i := 30; }
    else if b == 28 { i := 13; }
    else if b == 29 { i := 7; }
    else if b == 30 { i := 27; }
    else { i := 15; }
  }

  lemma MulSquares(s: bv8, t: bv8, b: bv8)
    requires s < 32 && t < 32 && b < 32
    ensures Mul(Mul(s, b), Mul(t, b)) == Mul(Mul(s, t), Mul(b, b))
  {
    hide Mul;
    MulRange(s, b);
    MulRange(s, t);
    MulAssociates(Mul(s, b), t, b);
    MulExchange(s, t, b);
    MulAssociates(Mul(s, t), b, b);
  }

  /** The polynomial that defines e has no root in GF(32). */
  lemma NoRoot(t: bv8)
    requires t < 32
    ensures XorByte(Mul(t, XorByte(t, 9)), 23) != 0
  {}

  lemma NormSome(x: Elem)
    requires Ok(x) && Norm(x) == 0
    ensures x == NONE
  {
    hide Mul, XorByte, Norm;
    var a, b := x.lo, x.hi;
    if b == 0 {
      RealNorm(x);
      MulZero(a, a);
    } else {
      var i := Inverse(b);
      var t := Mul(a, i);
      MulRange(a, i);
      MulAssociates(a, i, b);
      MulComm(i, b);
      MulOne(a);
      NormQuotient(x, t);
      NoRoot(t);
      var q := XorByte(Mul(t, XorByte(t, 9)), 23);
      QuotientRange(t);
      MulRange(b, b);
      MulZero(q, Mul(b, b));
      MulZero(b, b);
    }
  }

  lemma RealNorm(x: Elem)
    requires Ok(x) && x.hi == 0
    ensures Norm(x) == Mul(x.lo, x.lo)
  {
    hide Mul, XorByte;
    ZeroScaled(9);
    ZeroScaled(0);
    ZeroScaled(23);
    XorByteZero(x.lo);
    XorByteZero(Mul(x.lo, x.lo));
  }

  lemma QuotientRange(t: bv8)
    requires t < 32
    ensures XorByte(Mul(t, XorByte(t, 9)), 23) < 32
  {
    hide Mul, XorByte;
    MulRange(t, XorByte(t, 9));
    XorSmall(Mul(t, XorByte(t, 9)), 23);
  }

  /** The norm of t b + b e is the square of b times the value of that polynomial at t. */
  lemma NormQuotient(x: Elem, t: bv8)
    requires Ok(x) && t < 32 && x.lo == Mul(t, x.hi)
    ensures Norm(x) == Mul(XorByte(Mul(t, XorByte(t, 9)), 23), Mul(x.hi, x.hi))
  {
    hide Mul, XorByte;
    var b := x.hi;
    MulDistributes(t, 9, b);
    XorSmall(t, 9);
    MulSquares(t, XorByte(t, 9), b);
    MulDistributes(Mul(t, XorByte(t, 9)), 23, Mul(b, b));
  }

  lemma NormIs(x: Elem)
    requires Ok(x)
    ensures Prod(x, Conjugate(x)) == Elem(Norm(x), 0) && Norm(x) < 32 && Ok(Conjugate(x))
  {
    hide Mul, XorByte;
    var a, b := x.lo, x.hi;
    MulRange(9, b);
    XorSmall(a, Mul(9, b));
    var c := XorByte(a, Mul(9, b));
    MulComm(c, a);
    MulComm(c, b);
    MulSwap(b, 23, b);
    SelfXor(Mul(b, c));
    MulRange(a, c);
    MulRange(23, Mul(b, b));
    XorSmall(Mul(a, c), Mul(23, Mul(b, b)));
  }

  lemma NoDivisors(x: Elem, y: Elem)
    requires Ok(x) && Ok(y) && Prod(x, y) == NONE
    ensures x == NONE || y == NONE
  {
    hide Prod, Norm, Conjugate;
    if x != NONE {
      var c, n := Conjugate(x), Norm(x);
      if n == 0 { NormSome(x); assert false; }
      NormIs(x);
      ProdExchange(x, c, y);
      ProdOne(c);
      ProdComm(Elem(n, 0), y);
      RealScales(n, y);
      ScaledSome(n, y);
    }
  }

  lemma RealScales(n: bv8, y: Elem)
    requires n < 32 && Ok(y)
    ensures Prod(y, Elem(n, 0)) == Scaled(n, y)
  {
    hide Plus, Scaled, TimesE;
    TimesEOk(y);
    ScaledSome(n, TimesE(y));
    PlusSelf(Scaled(n, y), NONE);
  }

  // ---------------------------------------------------------------- powers

  function Pow(x: Elem, n: nat): Elem { if n == 0 then ONE else Prod(Pow(x, n - 1), x) }

  lemma {:induction false} PowOk(x: Elem, n: nat)
    requires Ok(x)
    ensures Ok(Pow(x, n))
  {
    hide Prod;
    if n > 0 {
      PowOk(x, n - 1);
      ProdOk(Pow(x, n - 1), x);
    }
  }

  lemma {:induction false} PowSum(x: Elem, m: nat, n: nat)
    requires Ok(x)
    ensures Pow(x, m + n) == Prod(Pow(x, m), Pow(x, n))
  {
    hide Prod;
    PowOk(x, m);
    if n == 0 {
      ProdOne(Pow(x, m));
    } else {
      PowSum(x, m, n - 1);
      PowOk(x, n - 1);
      ProdAssoc(Pow(x, m), Pow(x, n - 1), x);
    }
  }

  lemma {:induction false} PowTimes(x: Elem, m: nat, n: nat)
    requires Ok(x)
    ensures Pow(Pow(x, m), n) == Pow(x, m * n)
  {
    hide Prod;
    if n == 0 {
      assert m * n == 0;
    } else {
      PowTimes(x, m, n - 1);
      PowSum(x, m * (n - 1), m);
      assert m * n == m * (n - 1) + m;
    }
  }

  lemma PowSwap(x: Elem, m: nat, n: nat)
    requires Ok(x)
    ensures Pow(Pow(x, m), n) == Pow(Pow(x, n), m)
  {
    PowTimes(x, m, n);
    PowTimes(x, n, m);
  }

  lemma {:induction false} PowSome(x: Elem, n: nat)
    requires Ok(x) && x != NONE
    ensures Pow(x, n) != NONE
  {
    hide Prod;
    if n > 0 {
      PowSome(x, n - 1);
      PowOk(x, n - 1);
      if Pow(x, n) == NONE { NoDivisors(Pow(x, n - 1), x); }
    }
  }

  /** e to the powers of two. */
  lemma Squares()
    ensures Pow(E, 1) == Elem(0, 1)
    ensures Pow(E, 2) == Elem(23, 9)
    ensures Pow(E, 4) == Elem(14, 6)
    ensures Pow(E, 8) == Elem(25, 16)
    ensures Pow(E, 16) == Elem(3, 21)
    ensures Pow(E, 32) == Elem(9, 1)
    ensures Pow(E, 64) == Elem(4, 9)
    ensures Pow(E, 128) == Elem(17, 6)
    ensures Pow(E, 256) == Elem(4, 16)
    ensures Pow(E, 512) == Elem(26, 21)
  {
    hide Prod;
    assert Ok(E) && Ok(ONE);
    ProdOne(E);
    assert Pow(E, 1) == Prod(Pow(E, 0), E);
    PowSum(E, 1, 1);
    PowSum(E, 2, 2);
    PowSum(E, 4, 4);
    PowSum(E, 8, 8);
    PowSum(E, 16, 16);
    PowSum(E, 32, 32);
    PowSum(E, 64, 64);
    PowSum(E, 128, 128);
    PowSum(E, 256, 256);
    SquareTable();
  }

  lemma SquareTable()
    ensures Prod(Elem(0, 1), Elem(0, 1)) == Elem(23, 9)
    ensures Prod(Elem(23, 9), Elem(23, 9)) == Elem(14, 6)
    ensures Prod(Elem(14, 6), Elem(14, 6)) == Elem(25, 16)
    ensures Prod(Elem(25, 16), Elem(25, 16)) == Elem(3, 21)
    ensures Prod(Elem(3, 21), Elem(3, 21)) == Elem(9, 1)
    ensures Prod(Elem(9, 1), Elem(9, 1)) == Elem(4, 9)
    ensures Prod(Elem(4, 9), Elem(4, 9)) == Elem(17, 6)
    ensures Prod(Elem(17, 6), Elem(17, 6)) == Elem(4, 16)
    ensures Prod(Elem(4, 16), Elem(4, 16)) == Elem(26, 21)
  {}

  lemma Power1023()
    ensures Pow(E, 1023) == Elem(1, 0)
  {
    hide Prod;
    Squares();
    Power1023Table();
    PowSum(E, 1, 2);
    PowSum(E, 3, 4);
    PowSum(E, 7, 8);
    PowSum(E, 15, 16);
    PowSum(E, 31, 32);
    PowSum(E, 63, 64);
    PowSum(E, 127, 128);
    PowSum(E, 255, 256);
    PowSum(E, 511, 512);
  }

  lemma Power1023Table()
    ensures Prod(Elem(0, 1), Elem(23, 9)) == Elem(11, 4)
    ensures Prod(Elem(11, 4), Elem(14, 6)) == Elem(20, 5)
    ensures Prod(Elem(20, 5), Elem(25, 16)) == Elem(31, 28)
    ensures Prod(Elem(31, 28), Elem(3, 21)) == Elem(30, 6)
    ensures Prod(Elem(30, 6), Elem(9, 1)) == Elem(17, 30)
    ensures Prod(Elem(17, 30), Elem(4, 9)) == Elem(27, 16)
    ensures Prod(Elem(27, 16), Elem(17, 6)) == Elem(8, 30)
    ensures Prod(Elem(8, 30), Elem(4, 16)) == Elem(27, 25)
    ensures Prod(Elem(27, 25), Elem(26, 21)) == Elem(1, 0)
  {}

  lemma Power341()
    ensures Pow(E, 341) == Elem(13, 11)
  {
    hide Prod;
    Squares();
    Power341Table();
    PowSum(E, 1, 4);
    PowSum(E, 5, 16);
    PowSum(E, 21, 64);
    PowSum(E, 85, 256);
  }

  lemma Power341Table()
    ensures Prod(Elem(0, 1), Elem(14, 6)) == Elem(9, 17)
    ensures Prod(Elem(9, 17), Elem(3, 21)) == Elem(30, 29)
    ensures Prod(Elem(30, 29), Elem(4, 9)) == Elem(19, 12)
    ensures Prod(Elem(19, 12), Elem(4, 16)) == Elem(13, 11)
  {}

  lemma Power93()
    ensures Pow(E, 93) == Elem(22, 26)
  {
    hide Prod;
    Squares();
    Power93Table();
    PowSum(E, 1, 4);
    PowSum(E, 5, 8);
    PowSum(E, 13, 16);
    PowSum(E, 29, 64);
  }

  lemma Power93Table()
    ensures Prod(Elem(0, 1), Elem(14, 6)) == Elem(9, 17)
    ensures Prod(Elem(9, 17), Elem(25, 16)) == Elem(21, 11)
    ensures Prod(Elem(21, 11), Elem(3, 21)) == Elem(28, 3)
    ensures Prod(Elem(28, 3), Elem(4, 9)) == Elem(22, 26)
  {}

  lemma Power33()
    ensures Pow(E, 33) == Elem(23, 0)
  {
    hide Prod;
    Squares();
    Power33Table();
    PowSum(E, 1, 32);
  }

  lemma Power33Table()
    ensures Prod(Elem(0, 1), Elem(9, 1)) == Elem(23, 0)
  {}

  lemma Power997()
    ensures Pow(E, 997) == Elem(29, 13)
  {
    hide Prod;
    Squares();
    Power997Table();
    PowSum(E, 1, 4);
    PowSum(E, 5, 32);
    PowSum(E, 37, 64);
    PowSum(E, 101, 128);
    PowSum(E, 229, 256);
    PowSum(E, 485, 512);
  }

  lemma Power997Table()
    ensures Prod(Elem(0, 1), Elem(14, 6)) == Elem(9, 17)
    ensures Prod(Elem(9, 17), Elem(9, 1)) == Elem(21, 9)
    ensures Prod(Elem(21, 9), Elem(4, 9)) == Elem(7, 18)
    ensures Prod(Elem(7, 18), Elem(17, 6)) == Elem(3, 24)
    ensures Prod(Elem(3, 24), Elem(4, 16)) == Elem(3, 9)
    ensures Prod(Elem(3, 9), Elem(26, 21)) == Elem(29, 13)
  {}

  /** The next two powers. */
  lemma Powers998()
    ensures Pow(E, 998) == Elem(5, 3) && Pow(E, 999) == Elem(16, 30)
  {
    hide Prod;
    Power997();
    NextTable();
    assert Pow(E, 998) == Prod(Pow(E, 997), E) && Pow(E, 999) == Prod(Pow(E, 998), E);
  }

  lemma NextTable()
    ensures Prod(Elem(29, 13), E) == Elem(5, 3) && Prod(Elem(5, 3), E) == Elem(16, 30)
  {}

  // ---------------------------------------------------------------- the order of e is 1023

  lemma {:induction false} PowOfOne(n: nat)
    ensures Pow(ONE, n) == ONE
  {
    hide Prod;
    if n > 0 {
      PowOfOne(n - 1);
      assert Ok(ONE);
      ProdOne(ONE);
    }
  }

  lemma PeriodTimes(n: nat, k: nat)
    requires Pow(E, n) == ONE
    ensures Pow(E, n * k) == ONE
  {
    hide Prod;
    assert Ok(E);
    PowTimes(E, n, k);
    PowOfOne(k);
  }

  lemma PeriodRest(a: nat, b: nat)
    requires Pow(E, a) == ONE && Pow(E, b) == ONE && b > 0
    ensures Pow(E, a % b) == ONE
  {
    hide Prod;
    assert Ok(E);
    PeriodTimes(b, a / b);
    PowSum(E, b * (a / b), a % b);
    assert a == b * (a / b) + a % b;
    PowOk(E, a % b);
    ProdOne(Pow(E, a % b));
  }

  /** With two numbers, their greatest common divisor is a period too. */
  lemma {:induction false} PeriodGcd(a: nat, b: nat) returns (d: nat, p: nat, q: nat)
    requires Pow(E, a) == ONE && Pow(E, b) == ONE && a > 0
    ensures d > 0 && Pow(E, d) == ONE && a == d * p && b == d * q
    decreases b
  {
    hide Prod, Pow;
    if b == 0 {
      d, p, q := a, 1, 0;
    } else {
      PeriodRest(a, b);
      var r;
      d, q, r := PeriodGcd(b, a % b);
      p := q * (a / b) + r;
      GcdStep(a, b, d, q, r);
    }
  }

  lemma GcdStep(a: nat, b: nat, d: nat, q: nat, r: nat)
    requires b > 0 && b == d * q && a % b == d * r
    ensures a == d * (q * (a / b) + r)
  {
    var k := a / b;
    assert a == b * k + a % b;
    assert (d * q) * k == d * (q * k);
    assert d * (q * k + r) == d * (q * k) + d * r;
  }

  lemma Divisors(m: nat, k: nat)
    requires m * k == 1023 && m < 1023
    ensures m in {1, 3, 11, 31, 33, 93, 341}
  {
    if m <= 31 {
      SmallDivisor(m, k);
    } else if k <= 31 {
      assert k * m == m * k;
      SmallDivisor(k, m);
    } else {
      TooBig(m, k);
    }
  }

  lemma TooBig(m: nat, k: nat)
    requires m >= 32 && k >= 32
    ensures m * k >= 1024
  {
    assert (m - 32) * (k - 32) >= 0;
    assert (m - 32) * (k - 32) == m * k - 32 * m - 32 * k + 1024;
  }

  lemma SmallDivisor(m: nat, k: nat)
    requires m * k == 1023 && m <= 31
    ensures (m == 1 && k == 1023) || (m == 3 && k == 341) || (m == 11 && k == 93) || (m == 31 && k == 33)
  {
    if m == 0 {}
    else if m == 1 {}
    else if m == 2 {}
    else if m == 3 {}
    else if m == 4 {}
    else if m == 5 {}
    else if m == 6 {}
    else if m == 7 {}
    else if m == 8 {}
    else if m == 9 {}
    else if m == 10 {}
    else if m == 11 {}
    else if m == 12 {}
    else if m == 13 {}
    else if m == 14 {}
    else if m == 15 {}
    else if m == 16 {}
    else if m == 17 {}
    else if m == 18 {}
    else if m == 19 {}
    else if m == 20 {}
    else if m == 21 {}
    else if m == 22 {}
    else if m == 23 {}
    else if m == 24 {}
    else if m == 25 {}
    else if m == 26 {}
    else if m == 27 {}
    else if m == 28 {}
    else if m == 29 {}
    else if m == 30 {}
    else { assert m == 31; }
  }

  /** No power of e below the 1023rd is 1. */
  lemma NoShortPeriod(n: nat)
    requires 0 < n < 1023
    ensures Pow(E, n) != ONE
  {
    hide Prod, Pow;
    if Pow(E, n) == ONE {
      Power1023();
      var d, p, q := PeriodGcd(n, 1023);
      assert d <= n by { assert d * p >= d; }
      Divisors(d, q);
      Power33();
      Power93();
      Power341();
      PeriodTimes(d, 33 / d);
      PeriodTimes(d, 93 / d);
      assert false;
    }
  }

  lemma CancelFactor(x: Elem, y: Elem)
    requires Ok(x) && Ok(y) && x != NONE && Prod(x, y) == x
    ensures y == ONE
  {
    hide Prod, Plus;
    assert Ok(ONE);
    ProdOne(x);
    ProdComm(x, y);
    ProdComm(x, ONE);
    ProdPlus(y, ONE, x);
    PlusSelf(x, NONE);
    PlusOk(y, ONE);
    NoDivisors(Plus(y, ONE), x);
    PlusSelf(y, ONE);
  }

  lemma DistinctPowers(p: nat, q: nat)
    requires p < q < p + 1023
    ensures Pow(E, p) != Pow(E, q)
  {
    hide Prod, Pow;
    assert Ok(E) && E != NONE;
    PowSum(E, p, q - p);
    PowOk(E, p);
    PowOk(E, q - p);
    PowSome(E, p);
    NoShortPeriod(q - p);
    if Pow(E, p) == Pow(E, q) { CancelFactor(Pow(E, p), Pow(E, q - p)); }
  }

  // ---------------------------------------------------------------- three unknowns

  lemma ProdPlusRight(x: Elem, y: Elem, z: Elem)
    requires Ok(x) && Ok(y) && Ok(z)
    ensures Prod(x, Plus(y, z)) == Plus(Prod(x, y), Prod(x, z))
  {
    hide Prod, Plus;
    PlusOk(y, z);
    ProdComm(x, Plus(y, z));
    ProdComm(x, y);
    ProdComm(x, z);
    ProdPlus(y, z, x);
  }

  /** d y^2 + d z^2 is d (y + z)^2: what is in between occurs twice. */
  lemma SumOfSquares(d: Elem, y: Elem, z: Elem)
    requires Ok(d) && Ok(y) && Ok(z)
    ensures Plus(Prod(Prod(d, y), y), Prod(Prod(d, z), z)) == Prod(Prod(d, Plus(y, z)), Plus(y, z))
  {
    hide Prod, Plus;
    var a, b := Prod(d, y), Prod(d, z);
    ProdOk(d, y);
    ProdOk(d, z);
    PlusOk(y, z);
    ProdPlusRight(d, y, z);
    ProdPlus(a, b, Plus(y, z));
    ProdPlusRight(a, y, z);
    ProdPlusRight(b, y, z);
    ProdExchange(d, y, z);
    var m := Prod(a, z);
    PlusComm(m, Prod(b, z));
    PlusExchange(Prod(a, y), m, Prod(b, z), m);
    PlusSelf(m, NONE);
    PlusSelf(Plus(Prod(a, y), Prod(b, z)), NONE);
  }

  ghost function Sum3(x: Elem, y: Elem, z: Elem): Elem { Plus(Plus(x, y), z) }

  /** The determinant of Vandermonde for three different elements. */
  lemma Vandermonde(d1: Elem, d2: Elem, d3: Elem, y1: Elem, y2: Elem, y3: Elem)
    requires Ok(d1) && Ok(d2) && Ok(d3) && Ok(y1) && Ok(y2) && Ok(y3) && y1 != y2 && y2 != y3
    requires Sum3(d1, d2, d3) == NONE && Sum3(Prod(d1, y1), Prod(d2, y2), Prod(d3, y3)) == NONE
    requires Sum3(Prod(Prod(d1, y1), y1), Prod(Prod(d2, y2), y2), Prod(Prod(d3, y3), y3)) == NONE
    ensures d2 == NONE
  {
    hide Prod, Plus;
    var u, v := Plus(y1, y2), Plus(y1, y3);
    PlusOk(y1, y2);
    PlusOk(y1, y3);
    Eliminate(d1, d2, d3, y1, y2, y3);
    var a := Prod(d2, u);
    ProdOk(d2, u);
    ProdPlusRight(a, u, v);
    PlusExchange(y1, y2, y1, y3);
    PlusSelf(y1, NONE);
    PlusSelf(Plus(y2, y3), NONE);
    PlusOk(y2, y3);
    NoDivisors(a, Plus(y2, y3));
    PlusSelf(y2, y3);
    NoDivisors(d2, u);
    PlusSelf(y1, y2);
  }

  /** The first unknown is the sum of the others; without it two equations are left. */
  lemma Eliminate(d1: Elem, d2: Elem, d3: Elem, y1: Elem, y2: Elem, y3: Elem)
    requires Ok(d1) && Ok(d2) && Ok(d3) && Ok(y1) && Ok(y2) && Ok(y3)
    requires Sum3(d1, d2, d3) == NONE && Sum3(Prod(d1, y1), Prod(d2, y2), Prod(d3, y3)) == NONE
    requires Sum3(Prod(Prod(d1, y1), y1), Prod(Prod(d2, y2), y2), Prod(Prod(d3, y3), y3)) == NONE
    ensures var u, v := Plus(y1, y2), Plus(y1, y3);
            Prod(d2, u) == Prod(d3, v) && Plus(Prod(Prod(d2, u), u), Prod(Prod(d2, u), v)) == NONE
  {
    hide Prod, Plus;
    var u, v := Plus(y1, y2), Plus(y1, y3);
    PlusAssoc(d1, d2, d3);
    PlusSelf(d1, Plus(d2, d3));
    ProdOk(d2, y1);
    ProdOk(d3, y1);
    ProdPlus(d2, d3, y1);
    ProdPlus(Prod(d2, y1), Prod(d3, y1), y1);
    Regroup(Prod(d2, y1), Prod(d3, y1), Prod(d2, y2), Prod(d3, y3));
    Regroup(Prod(Prod(d2, y1), y1), Prod(Prod(d3, y1), y1), Prod(Prod(d2, y2), y2), Prod(Prod(d3, y3), y3));
    ProdPlusRight(d2, y1, y2);
    ProdPlusRight(d3, y1, y3);
    PlusSelf(Prod(d2, u), Prod(d3, v));
    SumOfSquares(d2, y1, y2);
    SumOfSquares(d3, y1, y3);
  }

  lemma Regroup(a: Elem, b: Elem, c: Elem, d: Elem)
    ensures Sum3(Plus(a, b), c, d) == Plus(Plus(a, c), Plus(b, d))
  {
    hide Plus;
    PlusAssoc(Plus(a, b), c, d);
    PlusExchange(a, b, c, d);
  }
}
