// Big unsigned integers of any width as arrays of 32-bit limbs, least significant first (src/arith_uint256.h,
// src/arith_uint256.cpp). The types u32 and u64 are those of the source, so that every intermediate value is
// proved to fit.
module Limbs {
  import opened Powers

  const BASE := 0x1_0000_0000

  newtype u32 = x: int | 0 <= x < 0x1_0000_0000
  newtype u64 = x: int | 0 <= x < 0x1_0000_0000_0000_0000

  /** What a digit is worth in the i-th limb. */
  ghost function At(digit: int, i: nat): int { digit * Pow(BASE, i) }

  /** The number that limbs stand for. */
  ghost function Value(s: seq<u32>): int {
    if s == [] then 0 else Value(s[..|s| - 1]) + At(s[|s| - 1] as int, |s| - 1)
  }

  /** One more than the largest number of a width. */
  ghost function Modulus(width: nat): int { At(1, width) }

  /** A number as it is stored in a width. */
  ghost function Wrap(x: int, width: nat): int {
    ModulusPositive(width);
    x % Modulus(width)
  }

  lemma ModulusPositive(width: nat)
    ensures Modulus(width) > 0
  {
    PowPositive(BASE, width);
  }

  lemma WrapIs(x: int, q: int, r: int, width: nat)
    requires x == r + At(q, width) && 0 <= r < Modulus(width)
    ensures Wrap(x, width) == r
  {
    ModulusPositive(width);
    ModUnique(x, q, r, Modulus(width));
  }

  lemma AtAdd(a: int, b: int, i: nat)
    ensures At(a + b, i) == At(a, i) + At(b, i)
  {
    Distribute(a, b, Pow(BASE, i));
  }

  lemma AtZero(i: nat)
    ensures At(0, i) == 0 && At(-1, i) == -At(1, i) && At(1, 0) == 1
  {}

  /** A carry is worth one unit in the next limb. */
  lemma AtCarry(a: int, i: nat)
    ensures At(BASE * a, i) == At(a, i + 1)
  {
    Assoc(a, BASE, Pow(BASE, i));
  }

  lemma AtMono(a: int, b: int, i: nat)
    requires 0 <= a <= b
    ensures 0 <= At(a, i) <= At(b, i)
  {
    MulMono(a, b, Pow(BASE, i));
    MulMono(0, a, Pow(BASE, i));
  }

  lemma ValueNext(s: seq<u32>, i: nat)
    requires i < |s|
    ensures Value(s[..i + 1]) == Value(s[..i]) + At(s[i] as int, i)
  {
    assert s[..i + 1][..i] == s[..i];
  }

  lemma {:induction false} ValueBound(s: seq<u32>)
    ensures 0 <= Value(s) < Modulus(|s|)
  {
    hide At;
    AtZero(|s|);
    if s != [] {
      var n := |s| - 1;
      ValueBound(s[..n]);
      AtMono(s[n] as int, BASE - 1, n);
      AtAdd(BASE - 1, 1, n);
      AtCarry(1, n);
    }
  }

  /** All limbs 0. */
  lemma {:induction false} ValueZero(s: seq<u32>)
    requires forall i :: 0 <= i < |s| ==> s[i] == 0
    ensures Value(s) == 0
  {
    hide At;
    if s != [] {
      AtZero(|s| - 1);
      ValueZero(s[..|s| - 1]);
    }
  }

  /** Limbs from position i on add the same to both numbers. */
  lemma {:induction false} ValueTail(s: seq<u32>, t: seq<u32>, i: nat)
    requires |s| == |t| && i <= |s| && s[i..] == t[i..]
    ensures Value(s) - Value(s[..i]) == Value(t) - Value(t[..i])
  {
    hide At;
    if i < |s| {
      var n := |s| - 1;
      assert s[n] == s[i..][n - i] && t[n] == t[i..][n - i];
      assert s[..n][i..] == s[i..][..n - i] && t[..n][i..] == t[i..][..n - i];
      assert s[..n][..i] == s[..i] && t[..n][..i] == t[..i];
      ValueTail(s[..n], t[..n], i);
    } else {
      assert s[..i] == s && t[..i] == t;
    }
  }

  /** Writing one limb. */
  lemma ValueWrite(s: seq<u32>, i: nat, d: u32)
    requires i < |s|
    ensures Value(s[i := d]) == Value(s) - At(s[i] as int, i) + At(d as int, i)
    ensures Value(s[i := d][..i + 1]) == Value(s[..i]) + At(d as int, i)
  {
    hide At, Value;
    var t := s[i := d];
    ValueNext(s, i);
    ValueNext(t, i);
    assert t[..i] == s[..i] && t[i + 1..] == s[i + 1..];
    ValueTail(s, t, i + 1);
  }

  // ---------------------------------------------------------------- addition

  /** One column of a sum: what is written, and what is carried on. */
  lemma Column(done: int, sum: int, i: nat, carry: int, x: int)
    requires done + At(carry, i) == sum
    ensures done + At((carry + x) % BASE, i) + At((carry + x) / BASE, i + 1) == sum + At(x, i)
  {
    hide At;
    var n := carry + x;
    AtAdd(carry, x, i);
    AtAdd(n % BASE, BASE * (n / BASE), i);
    AtCarry(n / BASE, i);
  }

  method AddAssign(pn: array<u32>, b: array<u32>)
    requires pn.Length == b.Length
    modifies pn
    ensures Value(pn[..]) == Wrap(old(Value(pn[..])) + old(Value(b[..])), pn.Length)
  {
    hide At, Value, Wrap, Modulus;
    ghost var x, y := pn[..], b[..];
    var carry: u64 := 0;
    var i := 0;
    Nothing(pn[..0], x[..0], y[..0]);
    while i < pn.Length
      invariant 0 <= i <= pn.Length && 0 <= carry <= 1
      invariant pn[i..] == x[i..] && b[i..] == y[i..]
      invariant Value(pn[..i]) + At(carry as int, i) == Value(x[..i]) + Value(y[..i])
    {
      assert pn[i] == x[i] && b[i] == y[i];
      var n: u64 := carry + pn[i] as u64 + b[i] as u64;
      ValueNext(x, i);
      ValueNext(y, i);
      AtAdd(x[i] as int, y[i] as int, i);
      Column(Value(pn[..i]), Value(x[..i]) + Value(y[..i]), i, carry as int, x[i] as int + y[i] as int);
      ghost var s := pn[..];
      ValueWrite(s, i, (n % 0x1_0000_0000) as u32);
      pn[i] := (n % 0x1_0000_0000) as u32;
      carry := n / 0x1_0000_0000;
      assert pn[..i + 1] == s[i := pn[i]][..i + 1] && s[..i] == pn[..i];
      i := i + 1;
    }
    assert pn[..i] == pn[..] && x[..i] == x && y[..i] == y;
    ValueBound(pn[..]);
    WrapIs(Value(x) + Value(y), carry as int, Value(pn[..]), pn.Length);
  }

  lemma Nothing(a: seq<u32>, b: seq<u32>, c: seq<u32>)
    requires a == [] == b == c
    ensures Value(a) == Value(b) == Value(c) == 0 && At(0, 0) == 0 && At(1, 0) == 1
  {}

  // ---------------------------------------------------------------- complement, negation, subtraction

  method Complement(pn: array<u32>) returns (ret: array<u32>)
    ensures fresh(ret) && ret.Length == pn.Length && Value(ret[..]) == Modulus(pn.Length) - 1 - Value(pn[..])
  {
    hide At, Value;
    ret := new u32[pn.Length];
    var i := 0;
    Nothing(pn[..0], ret[..0], []);
    while i < pn.Length
      invariant 0 <= i <= pn.Length
      invariant Value(ret[..i]) + Value(pn[..i]) == At(1, i) - 1
    {
      ghost var s := ret[..];
      ValueWrite(s, i, 0xffff_ffff - pn[i]);
      ret[i] := 0xffff_ffff - pn[i];
      assert ret[..i + 1] == s[i := ret[i]][..i + 1] && s[..i] == ret[..i];
      ValueNext(pn[..], i);
      assert pn[..][..i] == pn[..i] && pn[..][..i + 1] == pn[..i + 1];
      AtAdd(ret[i] as int, pn[i] as int, i);
      AtAdd(BASE - 1, 1, i);
      AtCarry(1, i);
      i := i + 1;
    }
    assert ret[..i] == ret[..] && pn[..i] == pn[..];
  }

  method Increment(pn: array<u32>)
    modifies pn
    ensures Value(pn[..]) == Wrap(old(Value(pn[..])) + 1, pn.Length)
  {
    hide At, Value, Wrap;
    ghost var x := pn[..];
    var i := 0;
    Nothing(x[..0], [], []);
    while i < pn.Length
      invariant 0 <= i <= pn.Length && |x| == pn.Length && Value(pn[..]) == Value(x) - At(1, i) + 1
    {
      ghost var s := pn[..];
      AtCarry(1, i);
      AtAdd(BASE - 1, 1, i);
      AtZero(i);
      if pn[i] == 0xffff_ffff {
        ValueWrite(s, i, 0);
        pn[i] := 0;
        assert pn[..] == s[i := 0];
        i := i + 1;
      } else {
        AtAdd(pn[i] as int, 1, i);
        ValueWrite(s, i, pn[i] + 1);
        pn[i] := pn[i] + 1;
        assert pn[..] == s[i := pn[i]];
        ValueBound(pn[..]);
        AtZero(pn.Length);
        WrapIs(Value(x) + 1, 0, Value(pn[..]), pn.Length);
        return;
      }
    }
    ValueBound(pn[..]);
    WrapIs(Value(x) + 1, 1, Value(pn[..]), pn.Length);
  }

  method Decrement(pn: array<u32>)
    modifies pn
    ensures Value(pn[..]) == Wrap(old(Value(pn[..])) - 1, pn.Length)
  {
    hide At, Value, Wrap;
    ghost var x := pn[..];
    var i := 0;
    Nothing(x[..0], [], []);
    while i < pn.Length
      invariant 0 <= i <= pn.Length && |x| == pn.Length && Value(pn[..]) == Value(x) + At(1, i) - 1
    {
      ghost var s := pn[..];
      AtCarry(1, i);
      AtAdd(BASE - 1, 1, i);
      AtZero(i);
      if pn[i] == 0 {
        ValueWrite(s, i, 0xffff_ffff);
        pn[i] := 0xffff_ffff;
        assert pn[..] == s[i := 0xffff_ffff];
        i := i + 1;
      } else {
        AtAdd(pn[i] as int - 1, 1, i);
        ValueWrite(s, i, pn[i] - 1);
        pn[i] := pn[i] - 1;
        assert pn[..] == s[i := pn[i]];
        ValueBound(pn[..]);
        AtZero(pn.Length);
        WrapIs(Value(x) - 1, 0, Value(pn[..]), pn.Length);
        return;
      }
    }
    ValueBound(pn[..]);
    AtZero(pn.Length);
    WrapIs(Value(x) - 1, -1, Value(pn[..]), pn.Length);
  }

  method Negate(pn: array<u32>) returns (ret: array<u32>)
    ensures fresh(ret) && ret.Length == pn.Length && Value(ret[..]) == Wrap(-Value(pn[..]), pn.Length)
  {
    hide At, Value, Wrap, Modulus;
    ret := Complement(pn);
    Increment(ret);
    ValueBound(pn[..]);
    NegateIs(Value(pn[..]), pn.Length);
  }

  lemma NegateIs(v: int, width: nat)
    requires 0 <= v < Modulus(width)
    ensures Wrap(Modulus(width) - v, width) == Wrap(-v, width)
  {
    hide At, Wrap;
    AtZero(width);
    if v == 0 {
      WrapIs(Modulus(width), 1, 0, width);
      WrapIs(0, 0, 0, width);
    } else {
      WrapIs(Modulus(width) - v, 0, Modulus(width) - v, width);
      WrapIs(-v, -1, Modulus(width) - v, width);
    }
  }

  method SubAssign(pn: array<u32>, b: array<u32>)
    requires pn.Length == b.Length
    modifies pn
    ensures Value(pn[..]) == Wrap(old(Value(pn[..])) - old(Value(b[..])), pn.Length)
  {
    hide Value, Wrap;
    ghost var x, y := Value(pn[..]), Value(b[..]);
    var c := Negate(b);
    AddAssign(pn, c);
    WrapShift(x, -y, pn.Length);
  }

  /** A summand may be reduced first. */
  lemma WrapShift(x: int, y: int, width: nat)
    ensures Wrap(x + Wrap(y, width), width) == Wrap(x + y, width)
  {
    ModulusPositive(width);
    ModShift(x, y, Modulus(width));
  }

  // ---------------------------------------------------------------- multiplication

  lemma ProductBound(a: nat, b: nat)
    requires a < BASE && b < BASE
    ensures 0 <= a * b <= (BASE - 1) * (BASE - 1)
  {
    ProductMono(a, b, BASE - 1);
  }

  ghost function Times(a: int, b: int): int { a * b }

  lemma TimesIs(a: int, b: int)
    ensures Times(a, b) == a * b && Times(b, a) == a * b
  {}

  lemma TimesAdd(a: int, b: int, c: int)
    ensures Times(a + b, c) == Times(a, c) + Times(b, c) && Times(c, a + b) == Times(c, a) + Times(c, b)
  {
    Distribute(a, b, c);
  }

  /** Digits of two numbers. */
  lemma AtTimes(a: int, i: nat, b: int, j: nat)
    ensures Times(At(a, i), At(b, j)) == At(a * b, i + j)
  {
    hide Pow;
    PowAdd(BASE, i, j);
    FourFactors(a, Pow(BASE, i), b, Pow(BASE, j));
  }

  lemma FourFactors(a: int, p: int, b: int, q: int)
    ensures (a * p) * (b * q) == (a * b) * (p * q)
  {
    Assoc(a, p, b * q);
    Assoc(p, b, q);
    Assoc(b, p, q);
    Assoc(a, b, p * q);
  }

  /** A digit beyond the width is a multiple of the modulus. */
  lemma AtHigher(a: int, i: nat, width: nat)
    requires width <= i
    ensures At(a, i) == At(At(a, i - width), width)
  {
    PowAdd(BASE, i - width, width);
    Assoc(a, Pow(BASE, i - width), Pow(BASE, width));
  }

  /** A product, digit by digit. */
  lemma TimesNext(v: int, d: int, i: nat, b: int)
    ensures Times(v + At(d, i), b) == Times(v, b) + At(b * d, i) && Times(0, b) == 0
  {
    Distribute(v, At(d, i), b);
    Assoc(b, d, Pow(BASE, i));
  }

  method MulSmall(pn: array<u32>, b: u32)
    modifies pn
    ensures Value(pn[..]) == Wrap(old(Value(pn[..])) * b as int, pn.Length)
  {
    hide At, Value, Wrap, Modulus, Times;
    ghost var x := pn[..];
    var carry: u64 := 0;
    var i := 0;
    Nothing(pn[..0], x[..0], []);
    TimesNext(0, 0, 0, b as int);
    while i < pn.Length
      invariant 0 <= i <= pn.Length && carry <= 0xffff_ffff && pn[i..] == x[i..]
      invariant Value(pn[..i]) + At(carry as int, i) == Times(Value(x[..i]), b as int)
    {
      assert pn[i] == x[i];
      ProductBound(b as nat, pn[i] as nat);
      var n: u64 := carry + b as u64 * pn[i] as u64;
      ValueNext(x, i);
      TimesNext(Value(x[..i]), x[i] as int, i, b as int);
      Column(Value(pn[..i]), Times(Value(x[..i]), b as int), i, carry as int, b as int * x[i] as int);
      ghost var s := pn[..];
      ValueWrite(s, i, (n % 0x1_0000_0000) as u32);
      pn[i] := (n % 0x1_0000_0000) as u32;
      carry := n / 0x1_0000_0000;
      assert pn[..i + 1] == s[i := pn[i]][..i + 1] && s[..i] == pn[..i];
      i := i + 1;
    }
    assert pn[..i] == pn[..] && x[..i] == x;
    ValueBound(pn[..]);
    TimesIs(Value(x), b as int);
    WrapIs(Times(Value(x), b as int), carry as int, Value(pn[..]), pn.Length);
  }

  /** The limbs from m on are a multiple of what limb m is worth. */
  lemma {:induction false} ValueHigh(s: seq<u32>, m: nat) returns (t: int)
    requires m <= |s|
    ensures t >= 0 && Value(s) == Value(s[..m]) + At(t, m)
  {
    hide At;
    if m == |s| {
      t := 0;
      AtZero(m);
      assert s[..m] == s;
    } else {
      var n := |s| - 1;
      var u := ValueHigh(s[..n], m);
      assert s[..n][..m] == s[..m];
      AtHigher(s[n] as int, n, m);
      AtMono(0, s[n] as int, n - m);
      AtZero(n - m);
      AtAdd(u, At(s[n] as int, n - m), m);
      t := u + At(s[n] as int, n - m);
    }
  }

  /** The columns of a row below m = i + j are done; carry is what goes on. */
  ghost predicate RowDone(a: seq<u32>, a0: seq<u32>, y: seq<u32>, d: int, i: nat, j: nat, carry: int) {
    && |a| == |a0| == |y| && i + j <= |a| && a[i + j..] == a0[i + j..]
    && Value(a[..i + j]) + At(carry, i + j) == Value(a0[..i + j]) + Times(Value(y[..i]), At(d, j))
  }

  lemma RowStart(a: seq<u32>, y: seq<u32>, d: int, j: nat)
    requires |a| == |y| && j <= |a|
    ensures RowDone(a, a, y, d, 0, j, 0)
  {
    hide At, Times;
    Nothing(y[..0], [], []);
    AtZero(j);
    TimesIs(0, At(d, j));
  }

  lemma RowStep(a: seq<u32>, a0: seq<u32>, y: seq<u32>, d: int, i: nat, j: nat, carry: int, product: int)
    requires RowDone(a, a0, y, d, i, j, carry) && i + j < |a| && product == Times(d, y[i] as int) && 0 <= carry + a[i + j] as int + product
    ensures var n := carry + a[i + j] as int + product; RowDone(a[i + j := (n % BASE) as u32], a0, y, d, i + 1, j, n / BASE)
  {
    hide At, Value, Times;
    var m := i + j;
    var n := carry + a[m] as int + product;
    assert a[m] == a0[m];
    ValueNext(a0, m);
    ValueNext(y, i);
    TimesAdd(Value(y[..i]), At(y[i] as int, i), At(d, j));
    AtTimes(y[i] as int, i, d, j);
    TimesIs(d, y[i] as int);
    AtAdd(a0[m] as int, product, m);
    Column(Value(a[..m]), Value(a0[..m]) + Times(Value(y[..i]), At(d, j)), m, carry, a0[m] as int + product);
    ValueWrite(a, m, (n % BASE) as u32);
    assert a[m := (n % BASE) as u32][m + 1..] == a0[m + 1..];
  }

  lemma RowEnd(a: seq<u32>, a0: seq<u32>, y: seq<u32>, d: int, i: nat, j: nat, carry: int) returns (q: int)
    requires RowDone(a, a0, y, d, i, j, carry) && i + j == |a|
    ensures Value(a) + At(q, |a|) == Value(a0) + Times(Value(y), At(d, j))
  {
    hide At, Value, Times;
    assert a[..i + j] == a && a0[..i + j] == a0;
    var t := ValueHigh(y, i);
    TimesAdd(Value(y[..i]), At(t, i), At(d, j));
    AtTimes(t, i, d, j);
    AtAdd(carry, t * d, |a|);
    q := carry + t * d;
  }

  /** Adds one digit times b, moved up by j limbs, to the accumulator; what does not fit is dropped. */
  method MulRow(a: array<u32>, d: u32, b: array<u32>, j: nat) returns (ghost q: int)
    requires a.Length == b.Length && j < a.Length && a != b
    modifies a
    ensures Value(a[..]) + At(q, a.Length) == old(Value(a[..])) + Times(Value(b[..]), At(d as int, j))
  {
    hide At, Value, Times, RowDone;
    ghost var a0, y := a[..], b[..];
    var carry: u64 := 0;
    var i := 0;
    RowStart(a0, y, d as int, j);
    while i + j < a.Length
      invariant 0 <= i && i + j <= a.Length && carry <= 0xffff_ffff && b[..] == y
      invariant RowDone(a[..], a0, y, d as int, i, j, carry as int)
    {
      var m := i + j;
      ProductBound(d as nat, b[i] as nat);
      TimesIs(d as int, b[i] as int);
      RowStep(a[..], a0, y, d as int, i, j, carry as int, d as int * b[i] as int);
      var n: u64 := carry + a[m] as u64 + d as u64 * b[i] as u64;
      ghost var s := a[..];
      a[m] := (n % 0x1_0000_0000) as u32;
      carry := n / 0x1_0000_0000;
      assert a[..] == s[m := a[m]];
      i := i + 1;
    }
    q := RowEnd(a[..], a0, y, d as int, i, j, carry as int);
  }

  method MulAssign(pn: array<u32>, b: array<u32>)
    requires pn.Length == b.Length
    modifies pn
    ensures Value(pn[..]) == Wrap(old(Value(pn[..])) * old(Value(b[..])), pn.Length)
  {
    hide At, Value, Times, Modulus, Wrap;
    var a := new u32[pn.Length](_ => 0);
    ghost var x, y, w := pn[..], Value(b[..]), pn.Length;
    ghost var q := 0;
    Nothing(x[..0], [], []);
    AtZero(w);
    ValueZero(a[..]);
    TimesIs(0, y);
    var j := 0;
    while j < pn.Length
      invariant 0 <= j <= w && |x| == w && pn[..] == x && y == Value(b[..])
      invariant Value(a[..]) + At(q, w) == Times(Value(x[..j]), y)
    {
      ghost var r := MulRow(a, pn[j], b, j);
      ValueNext(x, j);
      TimesAdd(Value(x[..j]), At(x[j] as int, j), y);
      TimesIs(At(x[j] as int, j), y);
      AtAdd(q, r, w);
      q := q + r;
      j := j + 1;
    }
    assert x[..j] == x;
    ValueBound(a[..]);
    TimesIs(Value(x), y);
    WrapIs(Times(Value(x), y), q, Value(a[..]), w);
    ghost var r := a[..];
    assert Value(r) == Wrap(Value(x) * y, w);
    forall i | 0 <= i < pn.Length { pn[i] := a[i]; }
    assert a[..] == r;
    assert pn[..] == r;
  }

  // ---------------------------------------------------------------- comparison

  /** The sign of the difference. */
  method CompareTo(pn: array<u32>, b: array<u32>) returns (sign: int)
    requires pn.Length == b.Length
    ensures sign == if Value(pn[..]) < Value(b[..]) then -1 else if Value(pn[..]) > Value(b[..]) then 1 else 0
  {
    hide At, Value;
    var i := pn.Length;
    while i > 0
      invariant 0 <= i <= pn.Length && pn[i..] == b[i..]
    {
      i := i - 1;
      if pn[i] < b[i] {
        TopLimb(pn[..], b[..], i);
        return -1;
      }
      if pn[i] > b[i] {
        TopLimb(b[..], pn[..], i);
        return 1;
      }
      assert pn[i..] == b[i..];
    }
    assert pn[..] == b[..];
    sign := 0;
  }

  /** The highest limb that differs decides. */
  lemma TopLimb(s: seq<u32>, t: seq<u32>, i: nat)
    requires |s| == |t| && i < |s| && s[i] < t[i] && s[i + 1..] == t[i + 1..]
    ensures Value(s) < Value(t)
  {
    hide At, Value;
    ValueTail(s, t, i + 1);
    ValueNext(s, i);
    ValueNext(t, i);
    ValueBound(s[..i]);
    ValueBound(t[..i]);
    AtAdd(s[i] as int, 1, i);
    AtMono(s[i] as int + 1, t[i] as int, i);
  }
}
