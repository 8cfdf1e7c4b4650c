// Powers, and the few facts about products and remainders that the limb and digit arithmetic needs.
module Powers {

  function Pow(b: nat, n: nat): nat { if n == 0 then 1 else b * Pow(b, n - 1) }

  lemma {:induction false} PowPositive(b: nat, n: nat)
    requires b > 0
    ensures Pow(b, n) > 0
  {
    if n > 0 {
      PowPositive(b, n - 1);
      MulPositive(b, Pow(b, n - 1));
    }
  }

  lemma {:induction false} PowAdd(b: nat, m: nat, n: nat)
    ensures Pow(b, m + n) == Pow(b, m) * Pow(b, n)
  {
    if m == 0 {
      assert Pow(b, 0) * Pow(b, n) == Pow(b, n);
    } else {
      PowAdd(b, m - 1, n);
      assert m + n - 1 == m - 1 + n;
      Assoc(b, Pow(b, m - 1), Pow(b, n));
    }
  }

  lemma {:induction false} PowGrows(b: nat, m: nat, n: nat)
    requires b > 0 && m <= n
    ensures Pow(b, m) <= Pow(b, n)
  {
    PowAdd(b, m, n - m);
    PowPositive(b, m);
    PowPositive(b, n - m);
    MulAtLeast(Pow(b, m), Pow(b, n - m));
  }

  lemma {:induction false} PowPow(b: nat, m: nat, n: nat)
    ensures Pow(Pow(b, m), n) == Pow(b, m * n)
  {
    if n == 0 {
      assert m * n == 0;
    } else {
      PowPow(b, m, n - 1);
      PowAdd(b, m, m * (n - 1));
      assert m * n == m + m * (n - 1);
    }
  }

  lemma MulPositive(a: nat, b: nat)
    requires a > 0 && b > 0
    ensures a * b > 0
  {}

  lemma {:induction false} MulAtLeast(a: nat, b: nat)
    requires b > 0
    ensures a * b >= a
  {
    if b > 1 {
      MulAtLeast(a, b - 1);
      assert a * b == a * (b - 1) + a;
    }
  }

  lemma {:induction false} MulMono(a: nat, b: nat, c: nat)
    requires a <= b
    ensures a * c <= b * c
  {
    if c > 0 {
      MulMono(a, b, c - 1);
      assert a * c == a * (c - 1) + a && b * c == b * (c - 1) + b;
    }
  }

  lemma ProductMono(a: nat, b: nat, n: nat)
    requires a <= n && b <= n
    ensures 0 <= a * b <= n * n
  {
    MulMono(a, n, b);
    MulMono(b, n, n);
  }

  lemma Assoc(a: int, b: int, c: int)
    ensures (a * b) * c == a * (b * c)
  {}

  lemma Distribute(a: int, b: int, c: int)
    ensures (a + b) * c == a * c + b * c
  {}

  /** Quotient and remainder are unique. */
  lemma DivModUnique(x: int, q: int, r: int, m: int)
    requires m > 0 && x == q * m + r && 0 <= r < m
    ensures x / m == q && x % m == r
  {
    var d := x / m - q;
    assert x == (x / m) * m + x % m;
    assert d * m == r - x % m by { assert (x / m) * m == q * m + d * m by { Distribute(q, d, m); } }
    assert (-d) * m == -(d * m);
    if d > 0 { MulBig(d, m); } else if d < 0 { MulBig(-d, m); }
  }

  lemma {:induction false} MulBig(d: nat, m: nat)
    requires d > 0
    ensures d * m >= m
  {
    if d > 1 {
      MulBig(d - 1, m);
      Distribute(d - 1, 1, m);
    }
  }

  /** A number below m plus a multiple of m is congruent to it. */
  lemma ModUnique(x: int, q: int, r: int, m: int)
    requires m > 0 && x == r + q * m && 0 <= r < m
    ensures x % m == r
  {
    DivModUnique(x, q, r, m);
  }

  /** A summand may be reduced first. */
  lemma ModShift(x: int, y: int, m: int)
    requires m > 0
    ensures (x + y % m) % m == (x + y) % m
  {
    var q, r := (x + y % m) / m, (x + y % m) % m;
    assert x + y % m == q * m + r;
    assert x + y == (q + y / m) * m + r by { Distribute(q, y / m, m); }
    DivModUnique(x + y, q + y / m, r, m);
  }
}
