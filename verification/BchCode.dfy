// Bech32 is a BCH code: up to three wrong symbols among 1023 are always found.
//
// Three consecutive powers of e are roots of the generator, so a list with residue zero has these roots as well. With
// at most three symbols that are not zero this would be a linear system with a Vandermonde determinant.
module BchCode {
  import opened Gf32
  import opened Gf1024
  import opened Bech32

  // ---------------------------------------------------------------- evaluation

  /** The value of a polynomial at a. */
  function Eval(v: Data, a: Elem): Elem {
    if v == [] then NONE else Plus(Prod(Eval(v[..|v| - 1], a), a), Elem(v[|v| - 1], 0))
  }

  lemma EvalEmpty(a: Elem)
    ensures Eval([], a) == NONE
  {}

  lemma EvalAppend(v: Data, x: bv8, a: Elem)
    ensures Eval(v + [x], a) == Plus(Prod(Eval(v, a), a), Elem(x, 0))
  {
    hide Plus, Prod;
    assert (v + [x])[..|v|] == v;
  }

  lemma {:induction false} EvalOk(v: Data, a: Elem)
    requires Small(v) && Ok(a)
    ensures Ok(Eval(v, a))
  {
    hide Plus, Prod;
    if v != [] {
      var n := |v| - 1;
      EvalOk(v[..n], a);
      ProdOk(Eval(v[..n], a), a);
      PlusOk(Prod(Eval(v[..n], a), a), Elem(v[n], 0));
    }
  }

  lemma {:induction false} EvalXor(u: Data, w: Data, a: Elem)
    requires |u| == |w| && Small(u) && Small(w) && Ok(a)
    ensures Eval(Xor(u, w), a) == Plus(Eval(u, a), Eval(w, a))
  {
    hide Plus, Prod, XorByte;
    if u == [] {
      PlusSelf(NONE, NONE);
    } else {
      var n := |u| - 1;
      var p, q := Eval(u[..n], a), Eval(w[..n], a);
      EvalXor(u[..n], w[..n], a);
      assert Xor(u, w)[..n] == Xor(u[..n], w[..n]);
      EvalOk(u[..n], a);
      EvalOk(w[..n], a);
      ProdPlus(p, q, a);
      LastPlus(u[n], w[n]);
      PlusExchange(Prod(p, a), Elem(u[n], 0), Prod(q, a), Elem(w[n], 0));
    }
  }

  lemma LastPlus(x: bv8, y: bv8)
    ensures Plus(Elem(x, 0), Elem(y, 0)) == Elem(XorByte(x, y), 0)
  {
    hide XorByte;
    SelfXor(0);
  }

  lemma {:induction false} EvalScale(k: bv8, v: Data, a: Elem)
    requires k < 32 && Small(v) && Ok(a)
    ensures Eval(Scale(k, v), a) == Scaled(k, Eval(v, a))
  {
    hide Plus, Prod, Scaled, Mul;
    if v == [] {
      ScaledNone(k);
    } else {
      var n := |v| - 1;
      var p := Eval(v[..n], a);
      EvalScale(k, v[..n], a);
      assert Scale(k, v)[..n] == Scale(k, v[..n]);
      EvalOk(v[..n], a);
      ProdScaled(k, p, a);
      ProdOk(p, a);
      ScaledLast(k, v[n]);
      ScaledPlus(k, Prod(p, a), Elem(v[n], 0));
    }
  }

  lemma ScaledNone(k: bv8)
    requires k < 32
    ensures Scaled(k, NONE) == NONE
  {
    hide Mul;
    MulOne(k);
  }

  lemma ScaledLast(k: bv8, x: bv8)
    requires k < 32
    ensures Scaled(k, Elem(x, 0)) == Elem(Mul(k, x), 0)
  {
    hide Mul;
    MulOne(k);
  }

  /** Leading zeros do not matter. */
  lemma {:induction false} EvalLeading(v: Data, a: Elem)
    requires Ok(a)
    ensures Eval([ZERO] + v, a) == Eval(v, a)
  {
    hide Plus, Prod;
    if v == [] {
      assert [ZERO] + v == [] + [ZERO];
      EvalAppend([], ZERO, a);
      ProdOne(a);
      PlusSelf(NONE, NONE);
    } else {
      var n := |v| - 1;
      EvalLeading(v[..n], a);
      assert [ZERO] + v == ([ZERO] + v[..n]) + [v[n]];
      EvalAppend([ZERO] + v[..n], v[n], a);
    }
  }

  /** Trailing zeros multiply by powers of a. */
  lemma {:induction false} EvalTrailing(v: Data, m: nat, a: Elem)
    requires Small(v) && Ok(a)
    ensures Eval(v + Nothing(m), a) == Prod(Eval(v, a), Pow(a, m))
  {
    hide Plus, Prod;
    EvalOk(v, a);
    if m == 0 {
      assert v + Nothing(m) == v;
      ProdOne(Eval(v, a));
    } else {
      EvalTrailing(v, m - 1, a);
      assert v + Nothing(m) == (v + Nothing(m - 1)) + [ZERO];
      EvalAppend(v + Nothing(m - 1), ZERO, a);
      PowOk(a, m - 1);
      ProdAssoc(Eval(v, a), Pow(a, m - 1), a);
      PlusSelf(Prod(Eval(v + Nothing(m - 1), a), a), NONE);
    }
  }

  lemma EvalNothing(m: nat, a: Elem)
    requires Ok(a)
    ensures Eval(Nothing(m), a) == NONE
  {
    hide Eval;
    assert [] + Nothing(m) == Nothing(m);
    EvalEmpty(a);
    EvalTrailing([], m, a);
    PowOk(a, m);
    ProdOne(Pow(a, m));
  }

  // ---------------------------------------------------------------- residues at the roots

  /** A reduction by a polynomial does not change the value at its roots. */
  lemma EvalReduced(g: Data, r: Data, x: bv8, a: Elem)
    requires |r| == |g| - 1 && r != [] && g[0] == 1 && Small(g) && Small(r) && x < 32 && Ok(a) && Eval(g, a) == NONE
    ensures Eval(Reduced(g, r, x), a) == Plus(Prod(Eval(r, a), a), Elem(x, 0))
  {
    hide Plus, Prod, Eval, Mul, XorByte, Scaled;
    var k, p := r[0], r + [x];
    AsDifference(g, r, x);
    EvalLeading(Reduced(g, r, x), a);
    ScaleSmall(k, g);
    EvalXor(p, Scale(k, g), a);
    EvalScale(k, g, a);
    ScaledNone(k);
    PlusSelf(Eval(p, a), NONE);
    EvalAppend(r, x, a);
  }

  lemma ScaleSmall(k: bv8, g: Data)
    requires k < 32
    ensures Small(Scale(k, g))
  {
    hide Mul;
    forall i | 0 <= i < |g| ensures Scale(k, g)[i] < 32 { MulRange(k, g[i]); }
  }

  lemma AsDifference(g: Data, r: Data, x: bv8)
    requires |r| == |g| - 1 && r != [] && g[0] == 1 && r[0] < 32
    ensures [ZERO] + Reduced(g, r, x) == Xor(r + [x], Scale(r[0], g))
  {
    hide Mul, XorByte;
    MulOne(r[0]);
    SelfXor(r[0]);
  }

  ghost predicate Root(a: Elem) { Ok(a) && Eval(GENERATOR, a) == NONE }

  lemma NoGroups()
    ensures Groups(0) == Nothing(6)
  {}

  /** At a root of the generator, a list and its residue have the same value. */
  lemma {:induction false} ResidueEval(v: Data, a: Elem)
    requires Small(v) && Root(a)
    ensures Residue(0, v) < 0x40000000 && Eval(Groups(Residue(0, v)), a) == Eval(v, a)
    decreases |v|
  {
    hide Plus, Prod, Step, Groups, Reduced;
    if v == [] {
      NoGroups();
      EvalNothing(6, a);
    } else {
      var n := |v| - 1;
      var c := Residue(0, v[..n]);
      ResidueEval(v[..n], a);
      StepReduces(c, v[n]);
      StepRange(c, v[n]);
      GroupsSmall(c);
      GeneratorSmall();
      EvalReduced(GENERATOR, Groups(c), v[n], a);
    }
  }

  lemma GeneratorSmall()
    ensures Small(GENERATOR) && GENERATOR[0] == 1 && |GENERATOR| == 7
  {}

  lemma NoResidue(v: Data, a: Elem)
    requires Small(v) && Root(a) && Residue(0, v) == 0
    ensures Eval(v, a) == NONE
  {
    hide Eval, Residue;
    ResidueEval(v, a);
    NoGroups();
    EvalNothing(6, a);
  }

  /** The generator, coefficient by coefficient. */
  lemma Coefficients() returns (v0: Data, v1: Data, v2: Data, v3: Data, v4: Data, v5: Data, v6: Data)
    ensures v0 == [] && v1 == v0 + [1] && v2 == v1 + [29] && v3 == v2 + [22] && v4 == v3 + [20] && v5 == v4 + [21] && v6 == v5 + [29]
    ensures v6 + [18] == GENERATOR
  {
    v0 := [];
    v1 := v0 + [1];
    v2 := v1 + [29];
    v3 := v2 + [22];
    v4 := v3 + [20];
    v5 := v4 + [21];
    v6 := v5 + [29];
  }

  lemma HornerStart(a: Elem)
    requires Ok(a)
    ensures Plus(Prod(NONE, a), Elem(1, 0)) == ONE && Plus(Prod(ONE, a), Elem(29, 0)) == Elem(XorByte(a.lo, 29), a.hi)
  {
    hide Prod, XorByte;
    ProdOne(a);
    PlusSelf(ONE, NONE);
    XorByteZero(a.hi);
  }

  lemma Root997()
    ensures Eval(GENERATOR, Elem(29, 13)) == NONE
  {
    hide Plus, Prod, Eval;
    var a := Elem(29, 13);
    var v0, v1, v2, v3, v4, v5, v6 := Coefficients();
    EvalEmpty(a);
    HornerStart(a);
    Root997Middle();
    Root997Last();
    EvalAppend(v0, 1, a);
    EvalAppend(v1, 29, a);
    EvalAppend(v2, 22, a);
    EvalAppend(v3, 20, a);
    EvalAppend(v4, 21, a);
    EvalAppend(v5, 29, a);
    EvalAppend(v6, 18, a);
  }

  lemma Root997Middle()
    ensures Plus(Prod(Elem(0, 13), Elem(29, 13)), Elem(22, 0)) == Elem(6, 23)
    ensures Plus(Prod(Elem(6, 23), Elem(29, 13)), Elem(20, 0)) == Elem(17, 23)
  {}

  lemma Root997Last()
    ensures Plus(Prod(Elem(17, 23), Elem(29, 13)), Elem(21, 0)) == Elem(4, 18)
    ensures Plus(Prod(Elem(4, 18), Elem(29, 13)), Elem(29, 0)) == Elem(26, 2)
    ensures Plus(Prod(Elem(26, 2), Elem(29, 13)), Elem(18, 0)) == Elem(0, 0)
  {}

  lemma Root998()
    ensures Eval(GENERATOR, Elem(5, 3)) == NONE
  {
    hide Plus, Prod, Eval;
    var a := Elem(5, 3);
    var v0, v1, v2, v3, v4, v5, v6 := Coefficients();
    EvalEmpty(a);
    HornerStart(a);
    Root998Middle();
    Root998Last();
    EvalAppend(v0, 1, a);
    EvalAppend(v1, 29, a);
    EvalAppend(v2, 22, a);
    EvalAppend(v3, 20, a);
    EvalAppend(v4, 21, a);
    EvalAppend(v5, 29, a);
    EvalAppend(v6, 18, a);
  }

  lemma Root998Middle()
    ensures Plus(Prod(Elem(24, 3), Elem(5, 3)), Elem(22, 0)) == Elem(12, 10)
    ensures Plus(Prod(Elem(12, 10), Elem(5, 3)), Elem(20, 0)) == Elem(5, 7)
  {}

  lemma Root998Last()
    ensures Plus(Prod(Elem(5, 7), Elem(5, 3)), Elem(21, 0)) == Elem(15, 7)
    ensures Plus(Prod(Elem(15, 7), Elem(5, 3)), Elem(29, 0)) == Elem(12, 25)
    ensures Plus(Prod(Elem(12, 25), Elem(5, 3)), Elem(18, 0)) == Elem(0, 0)
  {}

  lemma Root999()
    ensures Eval(GENERATOR, Elem(16, 30)) == NONE
  {
    hide Plus, Prod, Eval;
    var a := Elem(16, 30);
    var v0, v1, v2, v3, v4, v5, v6 := Coefficients();
    EvalEmpty(a);
    HornerStart(a);
    Root999Middle();
    Root999Last();
    EvalAppend(v0, 1, a);
    EvalAppend(v1, 29, a);
    EvalAppend(v2, 22, a);
    EvalAppend(v3, 20, a);
    EvalAppend(v4, 21, a);
    EvalAppend(v5, 29, a);
    EvalAppend(v6, 18, a);
  }

  lemma Root999Middle()
    ensures Plus(Prod(Elem(13, 30), Elem(16, 30)), Elem(22, 0)) == Elem(26, 29)
    ensures Plus(Prod(Elem(26, 29), Elem(16, 30)), Elem(20, 0)) == Elem(5, 1)
  {}

  lemma Root999Last()
    ensures Plus(Prod(Elem(5, 1), Elem(16, 30)), Elem(21, 0)) == Elem(19, 21)
    ensures Plus(Prod(Elem(19, 21), Elem(16, 30)), Elem(29, 0)) == Elem(24, 11)
    ensures Plus(Prod(Elem(24, 11), Elem(16, 30)), Elem(18, 0)) == Elem(0, 0)
  {}

  lemma Roots()
    ensures Root(Pow(E, 997)) && Root(Pow(E, 998)) && Root(Pow(E, 999))
  {
    hide Pow, Eval;
    Power997();
    Powers998();
    Root997();
    Root998();
    Root999();
  }

  // ---------------------------------------------------------------- at most three symbols

  function Single(n: nat, i: nat, x: bv8): (v: Data)
    requires i < n
    ensures |v| == n
  {
    Nothing(i) + [x] + Nothing(n - 1 - i)
  }

  lemma EvalSingle(n: nat, i: nat, x: bv8, a: Elem)
    requires i < n && x < 32 && Ok(a)
    ensures Small(Single(n, i, x)) && Eval(Single(n, i, x), a) == Scaled(x, Pow(a, n - 1 - i))
  {
    hide Plus, Prod, Eval, Scaled;
    var v := Nothing(i) + [x];
    EvalNothing(i, a);
    EvalAppend(Nothing(i), x, a);
    ProdOne(a);
    PlusSelf(Elem(x, 0), NONE);
    EvalTrailing(v, n - 1 - i, a);
    PowOk(a, n - 1 - i);
    ProdComm(Elem(x, 0), Pow(a, n - 1 - i));
    RealScales(x, Pow(a, n - 1 - i));
  }

  /** Nothing but the symbols at i, j and k. */
  ghost predicate Only(v: Data, i: nat, j: nat, k: nat) {
    i < j < k < |v| && forall p :: 0 <= p < |v| && p != i && p != j && p != k ==> v[p] == 0
  }

  lemma SumOfSingles(v: Data, i: nat, j: nat, k: nat)
    requires Only(v, i, j, k)
    ensures v == Xor(Xor(Single(|v|, i, v[i]), Single(|v|, j, v[j])), Single(|v|, k, v[k]))
  {
    hide XorByte;
    XorByteZero(ZERO);
    XorByteZero(v[i]);
    XorByteZero(v[j]);
    XorByteZero(v[k]);
  }

  lemma EvalOnly(v: Data, i: nat, j: nat, k: nat, a: Elem)
    requires Small(v) && Only(v, i, j, k) && Ok(a)
    ensures Eval(v, a) == Sum3(Scaled(v[i], Pow(a, |v| - 1 - i)), Scaled(v[j], Pow(a, |v| - 1 - j)), Scaled(v[k], Pow(a, |v| - 1 - k)))
  {
    hide Plus, Eval, Scaled, Pow, XorByte, Single, Xor;
    var n := |v|;
    var x, y, z := Single(n, i, v[i]), Single(n, j, v[j]), Single(n, k, v[k]);
    SumOfSingles(v, i, j, k);
    EvalSingle(n, i, v[i], a);
    EvalSingle(n, j, v[j], a);
    EvalSingle(n, k, v[k], a);
    BothSmall(x, y);
    EvalXor(x, y, a);
    EvalXor(Xor(x, y), z, a);
  }

  lemma BothSmall(x: Data, y: Data)
    requires |x| == |y| && Small(x) && Small(y)
    ensures Small(Xor(x, y))
  {
    hide XorByte;
    forall i | 0 <= i < |x| ensures Xor(x, y)[i] < 32 { XorSmall(x[i], y[i]); }
  }

  /** The term of one symbol at e^m, e^(m+1) and e^(m+2): d, d y and d y^2, where y is e to the power of its position. */
  lemma Terms(x: bv8, p: nat, m: nat)
    requires x < 32
    ensures var y := Pow(E, p); var d := Scaled(x, Pow(y, m));
      && Ok(y) && Ok(d) && (d == NONE ==> x == 0)
      && Scaled(x, Pow(Pow(E, m), p)) == d && Scaled(x, Pow(Pow(E, m + 1), p)) == Prod(d, y) && Scaled(x, Pow(Pow(E, m + 2), p)) == Prod(Prod(d, y), y)
  {
    hide Prod, Scaled, Pow;
    assert Ok(E) && E != NONE;
    var y := Pow(E, p);
    PowOk(E, p);
    PowSome(E, p);
    PowOk(y, m);
    PowOk(y, m + 1);
    PowSome(y, m);
    PowSwap(E, m, p);
    PowSwap(E, m + 1, p);
    PowSwap(E, m + 2, p);
    NextPow(y, m);
    NextPow(y, m + 1);
    ScaledOk(x, Pow(y, m));
    ScaledSome(x, Pow(y, m));
    ProdScaled(x, Pow(y, m), y);
    ProdScaled(x, Pow(y, m + 1), y);
  }

  lemma NextPow(y: Elem, n: nat)
    ensures Pow(y, n + 1) == Prod(Pow(y, n), y)
  {}

  /** Up to three symbols among 1023, not all zero, have a residue. */
  lemma ThreeSymbols(v: Data, i: nat, j: nat, k: nat)
    requires Small(v) && Only(v, i, j, k) && |v| <= 1023 && Residue(0, v) == 0
    ensures v[i] == 0 && v[j] == 0 && v[k] == 0
  {
    hide Prod, Plus, Scaled, Pow, Eval, Root, Residue;
    var n, m := |v|, 997;
    var p, q, r := n - 1 - i, n - 1 - j, n - 1 - k;
    Roots();
    Equation(v, i, j, k, m);
    Equation(v, i, j, k, m + 1);
    Equation(v, i, j, k, m + 2);
    Terms(v[i], p, m);
    Terms(v[j], q, m);
    Terms(v[k], r, m);
    DistinctPowers(q, p);
    DistinctPowers(r, q);
    DistinctPowers(r, p);
    var y1, y2, y3 := Pow(E, p), Pow(E, q), Pow(E, r);
    var d1, d2, d3 := Scaled(v[i], Pow(y1, m)), Scaled(v[j], Pow(y2, m)), Scaled(v[k], Pow(y3, m));
    Vandermonde(d1, d2, d3, y1, y2, y3);
    Swapped(d1, d2, d3);
    Swapped(Prod(d1, y1), Prod(d2, y2), Prod(d3, y3));
    Swapped(Prod(Prod(d1, y1), y1), Prod(Prod(d2, y2), y2), Prod(Prod(d3, y3), y3));
    Vandermonde(d2, d1, d3, y2, y1, y3);
    Vandermonde(d1, d3, d2, y1, y3, y2);
  }

  lemma Swapped(x: Elem, y: Elem, z: Elem)
    ensures Sum3(y, x, z) == Sum3(x, y, z) && Sum3(x, z, y) == Sum3(x, y, z)
  {
    hide Plus;
    PlusComm(x, y);
    PlusAssoc(x, y, z);
    PlusComm(y, z);
    PlusAssoc(x, z, y);
  }

  lemma Equation(v: Data, i: nat, j: nat, k: nat, m: nat)
    requires Small(v) && Only(v, i, j, k) && Residue(0, v) == 0 && Root(Pow(E, m))
    ensures var a := Pow(E, m); Sum3(Scaled(v[i], Pow(a, |v| - 1 - i)), Scaled(v[j], Pow(a, |v| - 1 - j)), Scaled(v[k], Pow(a, |v| - 1 - k))) == NONE
  {
    hide Scaled, Pow, Eval, Residue, Plus;
    NoResidue(v, Pow(E, m));
    EvalOnly(v, i, j, k, Pow(E, m));
  }

  // ---------------------------------------------------------------- three errors are found

  /** u and w agree except perhaps at i, j and k. */
  ghost predicate DifferAt(u: Data, w: Data, i: nat, j: nat, k: nat) {
    |u| == |w| && i < j < k < |u| && forall p :: 0 <= p < |u| && p != i && p != j && p != k ==> u[p] == w[p]
  }

  /** Lists that differ in at most three of 1023 consecutive symbols have different residues. */
  lemma ThreeErrors(a: Data, u: Data, w: Data, b: Data, i: nat, j: nat, k: nat)
    requires Small(u) && Small(w) && DifferAt(u, w, i, j, k) && |u| <= 1023 && u != w
    ensures Residue(1, a + u + b) != Residue(1, a + w + b)
  {
    hide Residue, Xor32, XorByte, Small;
    var c := Residue(1, a);
    var p, q, x := Residue(c, u), Residue(c, w), Xor(u, w);
    ResidueConcat(1, a, u);
    ResidueConcat(1, a, w);
    ResidueConcat(1, a + u, b);
    ResidueConcat(1, a + w, b);
    ResidueLinear(c, c, u, w);
    Self32(c, c);
    ErrorSymbols(u, w, i, j, k);
    if Residue(0, x) == 0 { ThreeSymbols(x, i, j, k); assert false; }
    ResidueRange(0, x);
    ResidueLinear(p, q, b, b);
    XorZero(b);
    ResidueInjective(Xor32(p, q), |b|);
    Self32(Residue(p, b), Residue(q, b));
  }

  lemma ErrorSymbols(u: Data, w: Data, i: nat, j: nat, k: nat)
    requires Small(u) && Small(w) && DifferAt(u, w, i, j, k) && u != w
    ensures var x := Xor(u, w); Small(x) && Only(x, i, j, k) && !(x[i] == 0 && x[j] == 0 && x[k] == 0)
  {
    hide XorByte;
    var x := Xor(u, w);
    XorDiffers(u, w);
    forall p | 0 <= p < |u| && p != i && p != j && p != k ensures x[p] == 0 { SelfXor(u[p]); }
    var p :| 0 <= p < |u| && x[p] != Nothing(|u|)[p];
  }

  /** Up to three wrong symbols of an encoded string never go unnoticed. */
  lemma ThreeErrorsAreFound(hrp: string, a: Data, u: Data, w: Data, b: Data, i: nat, j: nat, k: nat)
    requires Bytes(hrp) && Small(u) && Small(w) && DifferAt(u, w, i, j, k) && |u| <= 1023 && u != w && Verified(hrp, a + u + b) != Invalid
    ensures Verified(hrp, a + w + b) != Verified(hrp, a + u + b)
  {
    hide Residue, Expand, Small, DifferAt;
    var e := Expand(hrp);
    ThreeErrors(e + a, u, w, b, i, j, k);
    assert e + (a + u + b) == e + a + u + b && e + (a + w + b) == e + a + w + b;
  }
}
