// The field GF(32) that Bech32 symbols are elements of, and polynomials over it (BIP 173, section "Checksum").
//
// A polynomial is the sequence of its coefficients, the highest first.
module Gf32 {

  type Data = seq<bv8>

  const ZERO: bv8 := 0

  // ---------------------------------------------------------------- the field

  /** Addition. */
  function XorByte(a: bv8, b: bv8): bv8 { a ^ b }

  /** Multiplication by the root a of a^5 + a^3 + 1. */
  function TimesRoot(x: bv8): bv8 { if x & 16 != 0 then ((x & 15) << 1) ^ 9 else (x & 15) << 1 }

  function If(on: bool, x: bv8): bv8 { if on then x else 0 }

  function HasBit(y: bv8, b: bv8): bool { y & b != 0 }

  function Sum(a: bv8, b: bv8, c: bv8, d: bv8, e: bv8): bv8 { XorByte(XorByte(XorByte(XorByte(a, b), c), d), e) }

  /** x times y, both as polynomials in the root a: the sum of x * a^i over the bits i of y. */
  function Mul(x: bv8, y: bv8): bv8 {
    var x1 := TimesRoot(x);
    var x2 := TimesRoot(x1);
    var x3 := TimesRoot(x2);
    Select(y, x, x1, x2, x3, TimesRoot(x3))
  }

  function Select(y: bv8, a: bv8, b: bv8, c: bv8, d: bv8, e: bv8): bv8 {
    Sum(If(HasBit(y, 1), a), If(HasBit(y, 2), b), If(HasBit(y, 4), c), If(HasBit(y, 8), d), If(HasBit(y, 16), e))
  }

  lemma MulRange(x: bv8, y: bv8)
    requires x < 32
    ensures Mul(x, y) < 32
  {}

  lemma MulOne(x: bv8)
    requires x < 32
    ensures Mul(x, 1) == x && Mul(1, x) == x && Mul(0, x) == 0 && Mul(x, 0) == 0
  {}

  lemma MulComm(x: bv8, y: bv8)
    requires x < 32 && y < 32
    ensures Mul(x, y) == Mul(y, x)
  {}

  /** There are no divisors of zero. */
  lemma MulZero(x: bv8, y: bv8)
    requires x < 32 && y < 32 && Mul(x, y) == 0
    ensures x == 0 || y == 0
  {}

  lemma RootLinear(x: bv8, y: bv8)
    ensures TimesRoot(XorByte(x, y)) == XorByte(TimesRoot(x), TimesRoot(y))
  {}

  lemma IfLinear(on: bool, x: bv8, y: bv8)
    ensures If(on, XorByte(x, y)) == XorByte(If(on, x), If(on, y))
  {}

  lemma SumLinear(a: bv8, b: bv8, c: bv8, d: bv8, e: bv8, a': bv8, b': bv8, c': bv8, d': bv8, e': bv8)
    ensures Sum(XorByte(a, a'), XorByte(b, b'), XorByte(c, c'), XorByte(d, d'), XorByte(e, e'))
         == XorByte(Sum(a, b, c, d, e), Sum(a', b', c', d', e'))
  {
    hide XorByte;
    var s2, t2 := XorByte(a, b), XorByte(a', b');
    var s3, t3 := XorByte(s2, c), XorByte(t2, c');
    Exchange(a, a', b, b');
    Exchange(s2, t2, c, c');
    Exchange(s3, t3, d, d');
    Exchange(XorByte(s3, d), XorByte(t3, d'), e, e');
  }

  lemma Exchange(a: bv8, b: bv8, c: bv8, d: bv8)
    ensures XorByte(XorByte(a, b), XorByte(c, d)) == XorByte(XorByte(a, c), XorByte(b, d))
  {
    hide XorByte;
    XorAssoc(a, b, XorByte(c, d));
    XorAssoc(b, c, d);
    XorComm(b, c);
    XorAssoc(c, b, d);
    XorAssoc(a, c, XorByte(b, d));
  }

  lemma XorAssoc(a: bv8, b: bv8, c: bv8)
    ensures XorByte(XorByte(a, b), c) == XorByte(a, XorByte(b, c))
  {}

  lemma XorComm(a: bv8, b: bv8)
    ensures XorByte(a, b) == XorByte(b, a)
  {}

  lemma SelectLinear(y: bv8, a: bv8, b: bv8, c: bv8, d: bv8, e: bv8, a': bv8, b': bv8, c': bv8, d': bv8, e': bv8)
    ensures Select(y, XorByte(a, a'), XorByte(b, b'), XorByte(c, c'), XorByte(d, d'), XorByte(e, e'))
         == XorByte(Select(y, a, b, c, d, e), Select(y, a', b', c', d', e'))
  {
    hide XorByte, If, Sum, HasBit;
    var p, q, r, s, t := HasBit(y, 1), HasBit(y, 2), HasBit(y, 4), HasBit(y, 8), HasBit(y, 16);
    IfLinear(p, a, a');
    IfLinear(q, b, b');
    IfLinear(r, c, c');
    IfLinear(s, d, d');
    IfLinear(t, e, e');
    SumLinear(If(p, a), If(q, b), If(r, c), If(s, d), If(t, e), If(p, a'), If(q, b'), If(r, c'), If(s, d'), If(t, e'));
  }

  lemma MulDistributes(x: bv8, y: bv8, z: bv8)
    ensures Mul(XorByte(x, y), z) == XorByte(Mul(x, z), Mul(y, z))
  {
    hide TimesRoot, XorByte, Select;
    var x1, y1 := TimesRoot(x), TimesRoot(y);
    var x2, y2 := TimesRoot(x1), TimesRoot(y1);
    var x3, y3 := TimesRoot(x2), TimesRoot(y2);
    RootLinear(x, y);
    RootLinear(x1, y1);
    RootLinear(x2, y2);
    RootLinear(x3, y3);
    SelectLinear(z, x, x1, x2, x3, TimesRoot(x3), y, y1, y2, y3, TimesRoot(y3));
  }

  /** The example of src/bech32.cpp: (a^2 + 1) * (a^4 + a^3 + a) is a^3 + 1. */
  lemma MulExample()
    ensures Mul(5, 26) == 9
  {}

  lemma MulRoot(x: bv8, y: bv8)
    requires x < 32 && y < 32
    ensures Mul(TimesRoot(x), y) == TimesRoot(Mul(x, y))
  {}

  lemma IfMul(on: bool, x: bv8, y: bv8)
    requires y < 32
    ensures Mul(If(on, x), y) == If(on, Mul(x, y))
  {
    hide Mul;
    if !on { MulOne(y); }
  }

  lemma SelectMul(z: bv8, a: bv8, b: bv8, c: bv8, d: bv8, e: bv8, x: bv8)
    requires x < 32
    ensures Mul(Select(z, a, b, c, d, e), x) == Select(z, Mul(a, x), Mul(b, x), Mul(c, x), Mul(d, x), Mul(e, x))
  {
    hide Mul, XorByte, If, HasBit;
    var a', b', c', d', e' := If(HasBit(z, 1), a), If(HasBit(z, 2), b), If(HasBit(z, 4), c), If(HasBit(z, 8), d), If(HasBit(z, 16), e);
    var s2 := XorByte(a', b');
    var s3 := XorByte(s2, c');
    MulDistributes(a', b', x);
    MulDistributes(s2, c', x);
    MulDistributes(s3, d', x);
    MulDistributes(XorByte(s3, d'), e', x);
    IfMul(HasBit(z, 1), a, x);
    IfMul(HasBit(z, 2), b, x);
    IfMul(HasBit(z, 4), c, x);
    IfMul(HasBit(z, 8), d, x);
    IfMul(HasBit(z, 16), e, x);
  }

  lemma RootRange(x: bv8)
    ensures TimesRoot(x) < 32
  {}

  lemma MulExchange(x: bv8, y: bv8, z: bv8)
    requires x < 32 && y < 32
    ensures Mul(Mul(x, z), y) == Mul(Mul(x, y), z)
  {
    hide Mul, Select, TimesRoot;
    var x1, x2, x3, x4 := Roots(x);
    var m := Mul(x, y);
    MulRoot(x, y);
    MulRoot(x1, y);
    MulRoot(x2, y);
    MulRoot(x3, y);
    MulSelects(x, z);
    MulSelects(m, z);
    SelectMul(z, x, x1, x2, x3, x4, y);
  }

  lemma Roots(x: bv8) returns (x1: bv8, x2: bv8, x3: bv8, x4: bv8)
    ensures x1 == TimesRoot(x) && x2 == TimesRoot(x1) && x3 == TimesRoot(x2) && x4 == TimesRoot(x3)
    ensures x1 < 32 && x2 < 32 && x3 < 32 && x4 < 32
  {
    hide TimesRoot;
    x1 := TimesRoot(x);
    x2 := TimesRoot(x1);
    x3 := TimesRoot(x2);
    x4 := TimesRoot(x3);
    RootRange(x);
    RootRange(x1);
    RootRange(x2);
    RootRange(x3);
  }

  lemma MulSelects(x: bv8, z: bv8)
    ensures Mul(x, z) == Select(z, x, TimesRoot(x), TimesRoot(TimesRoot(x)), TimesRoot(TimesRoot(TimesRoot(x))), TimesRoot(TimesRoot(TimesRoot(TimesRoot(x)))))
  {
    hide Select, TimesRoot;
  }

  lemma MulAssociates(x: bv8, y: bv8, z: bv8)
    requires x < 32 && y < 32 && z < 32
    ensures Mul(Mul(x, y), z) == Mul(x, Mul(y, z))
  {
    hide Mul;
    MulRange(y, z);
    MulComm(x, Mul(y, z));
    MulExchange(y, x, z);
    MulComm(x, y);
  }

  // ---------------------------------------------------------------- polynomials

  /** Symbols are elements of the field. */
  ghost predicate Small(v: Data) { forall i :: 0 <= i < |v| ==> v[i] < 32 }

  /** The sum of two polynomials. */
  function Xor(u: Data, w: Data): (x: Data)
    requires |u| == |w|
    ensures |x| == |u|
  {
    seq(|u|, i requires 0 <= i < |u| => XorByte(u[i], w[i]))
  }

  function Nothing(n: nat): (z: Data)
    ensures |z| == n
  {
    seq(n, _ => ZERO)
  }

  function Scale(k: bv8, p: Data): (r: Data)
    ensures |r| == |p|
  {
    seq(|p|, i requires 0 <= i < |p| => Mul(k, p[i]))
  }

  /** q(x) times g(x), by the coefficients of q: q(x) = q'(x) * x + k. */
  function Times(q: Data, g: Data): (r: Data)
    requires g != []
    ensures |r| == |q| + |g| - 1
    decreases |q|
  {
    if q == [] then Nothing(|g| - 1)
    else Xor(Times(q[..|q| - 1], g) + [ZERO], Nothing(|q| - 1) + Scale(q[|q| - 1], g))
  }

  /** p(x) == q(x) * g(x) + r(x), where r has a lower degree than g. */
  ghost predicate Divides(p: Data, q: Data, g: Data, r: Data)
    requires g != []
  {
    && |r| == |g| - 1 && |p| == |q| + |r| && Small(q) && Small(r)
    && p == Xor(Times(q, g), Nothing(|q|) + r)
  }

  /** r(x) is the remainder of p(x) modulo g(x). */
  ghost predicate Remainder(p: Data, g: Data, r: Data)
    requires g != []
  {
    exists q :: Divides(p, q, g, r)
  }

  // ---------------------------------------------------------------- division

  lemma Cancel(t: bv8, a: bv8, b: bv8)
    ensures XorByte(XorByte(t, a), XorByte(b, a)) == XorByte(t, b)
    ensures XorByte(XorByte(t, a), a) == t
  {
    hide XorByte;
    SelfXor(a);
    XorByteZero(t);
    XorAssoc(t, a, a);
    Exchange(t, a, b, a);
    XorComm(ZERO, t);
    XorByteZero(XorByte(t, b));
    XorComm(ZERO, XorByte(t, b));
  }

  lemma SelfXor(x: bv8)
    ensures XorByte(x, x) == 0
  {}

  lemma XorByteZero(b: bv8)
    ensures XorByte(ZERO, b) == b && XorByte(b, ZERO) == b
  {}

  lemma XorSame(t: bv8, a: bv8, b: bv8)
    requires XorByte(t, a) == XorByte(t, b)
    ensures a == b
  {}

  lemma XorSmall(a: bv8, b: bv8)
    requires a < 32 && b < 32
    ensures XorByte(a, b) < 32 && (XorByte(a, b) == 0 <==> a == b)
  {}

  /** The remainder after one more coefficient x: r(x) * x + x, less r[0] times the generator. */
  function Reduced(g: Data, r: Data, x: bv8): (r': Data)
    requires |r| == |g| - 1
    ensures |r'| == |r|
  {
    seq(|r|, i requires 0 <= i < |r| => XorByte((r + [x])[i + 1], Mul(r[0], g[i + 1])))
  }

  lemma ReducedAt(g: Data, r: Data, x: bv8, i: nat)
    requires |r| == |g| - 1 && i < |r|
    ensures Reduced(g, r, x)[i] == XorByte((r + [x])[i + 1], Mul(r[0], g[i + 1]))
  {
    hide Mul, XorByte;
  }

  lemma ReducedSmall(g: Data, r: Data, x: bv8)
    requires |r| == |g| - 1 && r != [] && Small(g) && Small(r) && x < 32
    ensures Small(Reduced(g, r, x))
  {
    hide Mul, XorByte;
    forall i | 0 <= i < |r| ensures Reduced(g, r, x)[i] < 32 {
      MulRange(r[0], g[i + 1]);
      XorSmall((r + [x])[i + 1], Mul(r[0], g[i + 1]));
    }
  }

  /** One step of the division by a polynomial with the leading coefficient 1. */
  lemma DivideNext(p: Data, q: Data, g: Data, r: Data, x: bv8)
    requires g != [] && g[0] == 1 && Small(g) && r != [] && Divides(p, q, g, r) && x < 32
    ensures Divides(p + [x], q + [r[0]], g, Reduced(g, r, x))
  {
    hide Mul, XorByte, Times, Small;
    var n, k, q', r' := |q|, r[0], q + [r[0]], Reduced(g, r, x);
    assert q'[..n] == q;
    var t := Times(q, g);
    var lhs, rhs := p + [x], Xor(Times(q', g), Nothing(n + 1) + r');
    TimesNext(q, k, g);
    assert |lhs| == |rhs|;
    SmallMore(q, r, k);
    forall j | 0 <= j < |lhs| ensures lhs[j] == rhs[j] { DivideAt(p, t, g, r, x, n, j); }
    ReducedSmall(g, r, x);
  }

  lemma SmallMore(q: Data, r: Data, k: bv8)
    requires Small(q) && Small(r) && r != [] && k == r[0]
    ensures Small(q + [k]) && k < 32
  {}

  lemma TimesNext(q: Data, k: bv8, g: Data)
    requires g != []
    ensures Times(q + [k], g) == Xor(Times(q, g) + [ZERO], Nothing(|q|) + Scale(k, g))
  {
    hide Mul, XorByte;
    assert (q + [k])[..|q|] == q;
  }

  lemma DivideAt(p: Data, t: Data, g: Data, r: Data, x: bv8, n: nat, j: nat)
    requires |r| == |g| - 1 && r != [] && g[0] == 1 && r[0] < 32 && |t| == n + |r| && p == Xor(t, Nothing(n) + r) && j <= n + |r|
    ensures (p + [x])[j] == Xor(Xor(t + [ZERO], Nothing(n) + Scale(r[0], g)), Nothing(n + 1) + Reduced(g, r, x))[j]
  {
    hide Mul, XorByte;
    var k := r[0];
    var r' := Reduced(g, r, x);
    if j < n {
      XorByteZero(t[j]);
    } else if j == n {
      MulOne(k);
      XorByteZero(XorByte(t[j], k));
    } else {
      var m := Mul(k, g[j - n]);
      assert r'[j - n - 1] == XorByte((r + [x])[j - n], m);
      if j < n + |r| {
        Cancel(t[j], m, r[j - n]);
      } else {
        Cancel(ZERO, m, x);
        XorByteZero(x);
      }
    }
  }

  /** The leading coefficients of a product determine the quotient. */
  lemma {:induction false} QuotientUnique(q: Data, q': Data, g: Data)
    requires |q| == |q'| && g != [] && g[0] == 1 && Small(q) && Small(q') && Times(q, g)[..|q|] == Times(q', g)[..|q|]
    ensures q == q'
    decreases |q|
  {
    hide Mul, XorByte, Times;
    if q != [] {
      var n := |q| - 1;
      var a, b, k, k' := q[..n], q'[..n], q[n], q'[n];
      assert q == a + [k] && q' == b + [k'];
      LeadingPart(a, k, g);
      LeadingPart(b, k', g);
      forall j | 0 <= j < n ensures Times(a, g)[j] == Times(b, g)[j] {
        assert Times(q, g)[j] == Times(q, g)[..|q|][j] && Times(q', g)[j] == Times(q', g)[..|q|][j];
      }
      assert Times(a, g)[..n] == Times(b, g)[..n];
      QuotientUnique(a, b, g);
      assert Times(q, g)[n] == Times(q, g)[..|q|][n] && Times(q', g)[n] == Times(q', g)[..|q|][n];
      XorSame((Times(a, g) + [ZERO])[n], k, k');
    }
  }

  lemma LeadingPart(q: Data, k: bv8, g: Data)
    requires g != [] && g[0] == 1 && k < 32
    ensures forall j :: 0 <= j < |q| ==> Times(q + [k], g)[j] == Times(q, g)[j]
    ensures Times(q + [k], g)[|q|] == XorByte((Times(q, g) + [ZERO])[|q|], k)
  {
    hide Mul, XorByte, Times;
    TimesNext(q, k, g);
    MulOne(k);
    forall j | 0 <= j < |q| ensures Times(q + [k], g)[j] == Times(q, g)[j] { XorByteZero(Times(q, g)[j]); }
  }

  /** There is one remainder. */
  lemma RemainderUnique(p: Data, g: Data, r: Data, r': Data)
    requires g != [] && g[0] == 1 && Remainder(p, g, r) && Remainder(p, g, r')
    ensures r == r'
  {
    hide XorByte, Times;
    var q :| Divides(p, q, g, r);
    var q' :| Divides(p, q', g, r');
    var t, t', n := Times(q, g), Times(q', g), |q|;
    forall j | 0 <= j < n ensures t[j] == t'[j] {
      XorByteZero(t[j]);
      XorByteZero(t'[j]);
      assert p[j] == XorByte(t[j], ZERO) && p[j] == XorByte(t'[j], ZERO);
    }
    assert t[..n] == t'[..n];
    QuotientUnique(q, q', g);
    forall i | 0 <= i < |r| ensures r[i] == r'[i] {
      assert p[n + i] == XorByte(t[n + i], r[i]) && p[n + i] == XorByte(t[n + i], r'[i]);
      XorSame(t[n + i], r[i], r'[i]);
    }
  }
}
