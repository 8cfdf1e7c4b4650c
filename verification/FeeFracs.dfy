// Fee/size pairs and the feerate orders of src/util/feefrac.h.
module FeeFracs {

  /** A fee and a size. A transaction always has a positive size; the empty FeeFrac is (0, 0). */
  datatype FeeFrac = FeeFrac(fee: int, size: int) {

    predicate IsEmpty() { size == 0 }

    function Plus(o: FeeFrac): FeeFrac { FeeFrac(fee + o.fee, size + o.size) }

    function Minus(o: FeeFrac): FeeFrac { FeeFrac(fee - o.fee, size - o.size) }

    function Negate(): FeeFrac { FeeFrac(-fee, size) }

    /** Operator `>>`: strictly higher feerate, ignoring size. */
    predicate Higher(o: FeeFrac) { fee * o.size > o.fee * size }

    /** Operator `<<`: strictly lower feerate, ignoring size. */
    predicate Lower(o: FeeFrac) { fee * o.size < o.fee * size }

    /** Operator `>`: higher feerate, or the same feerate and a smaller size. */
    predicate Better(o: FeeFrac) {
      fee * o.size > o.fee * size || (fee * o.size == o.fee * size && size < o.size)
    }
  }

  const EMPTY := FeeFrac(0, 0)

  /**
   * How far `f` lies above the line through the origin with the slope of `r`. This is the weight
   * fee - rate * size scaled by the positive size of `r`, so it is additive in `f` and
   * `f.Higher(r)` holds exactly when it is positive.
   */
  function Gain(f: FeeFrac, r: FeeFrac): int {
    f.fee * r.size - r.fee * f.size
  }

  lemma GainPlus(a: FeeFrac, b: FeeFrac, r: FeeFrac)
    ensures Gain(a.Plus(b), r) == Gain(a, r) + Gain(b, r)
  {
    assert (a.fee + b.fee) * r.size == a.fee * r.size + b.fee * r.size;
    assert r.fee * (a.size + b.size) == r.fee * a.size + r.fee * b.size;
  }

  lemma GainSelf(a: FeeFrac)
    ensures Gain(a, a) == 0
    ensures Gain(EMPTY, a) == 0
  {}

  lemma GainSwap(a: FeeFrac, b: FeeFrac)
    ensures Gain(a, b) == -Gain(b, a)
  {}

  /** The identity behind every comparison of three feerates. */
  lemma GainTriangle(a: FeeFrac, b: FeeFrac, r: FeeFrac)
    ensures Gain(a, r) * b.size == Gain(a, b) * r.size + Gain(b, r) * a.size
  {
    var x, y, z := a.fee * r.size, b.fee * r.size, r.fee * a.size;
    calc {
      Gain(a, b) * r.size + Gain(b, r) * a.size;
      { MulSub(a.fee * b.size, b.fee * a.size, r.size); MulSub(b.fee * r.size, r.fee * b.size, a.size); }
      (a.fee * b.size) * r.size - (b.fee * a.size) * r.size + (b.fee * r.size) * a.size - (r.fee * b.size) * a.size;
      { Shuffle(a.fee, b.size, r.size); Shuffle(b.fee, a.size, r.size); Shuffle(r.fee, b.size, a.size); }
      (a.fee * r.size) * b.size - (r.fee * a.size) * b.size;
      { MulSub(a.fee * r.size, r.fee * a.size, b.size); }
      Gain(a, r) * b.size;
    }
  }

  lemma MulSub(x: int, y: int, z: int)
    ensures (x - y) * z == x * z - y * z
  {}

  lemma Shuffle(x: int, y: int, z: int)
    ensures (x * y) * z == (x * z) * y
  {}

  lemma MulSign(x: int, y: int)
    requires y > 0
    ensures x > 0 <==> x * y > 0
    ensures x < 0 <==> x * y < 0
    ensures x == 0 <==> x * y == 0
  {}

  /** Feerates compare transitively against any line: a is not below b, so a is above whatever b is above. */
  lemma GainTransitive(a: FeeFrac, b: FeeFrac, r: FeeFrac)
    requires a.size > 0 && b.size > 0 && r.size > 0
    requires Gain(a, b) >= 0
    ensures Gain(b, r) >= 0 ==> Gain(a, r) >= 0
    ensures Gain(b, r) > 0 ==> Gain(a, r) > 0
    ensures Gain(a, r) < 0 ==> Gain(b, r) < 0
    ensures Gain(a, r) <= 0 ==> Gain(b, r) <= 0
    ensures Gain(a, b) > 0 && Gain(b, r) >= 0 ==> Gain(a, r) > 0
  {
    GainTriangle(a, b, r);
    MulSign(Gain(a, r), b.size);
    MulSign(Gain(a, b), r.size);
    MulSign(Gain(b, r), a.size);
  }

  /** `>` refines the feerate order. */
  lemma BetterNotLower(a: FeeFrac, b: FeeFrac)
    ensures a.Better(b) ==> Gain(a, b) >= 0
    ensures !a.Better(b) ==> Gain(a, b) <= 0
    ensures a.Higher(b) <==> Gain(a, b) > 0
    ensures a.Lower(b) <==> Gain(a, b) < 0
  {}
}
