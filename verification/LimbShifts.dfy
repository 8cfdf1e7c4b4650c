// Shifts, bit length and division of limb arrays (src/arith_uint256.cpp).
module LimbShifts {
  import opened Powers
  import opened Limbs

  // ---------------------------------------------------------------- bits of limbs

  function BitOr(a: nat, b: nat): nat {
    if a == 0 && b == 0 then 0
    else 2 * BitOr(a / 2, b / 2) + if a % 2 == 1 || b % 2 == 1 then 1 else 0
  }

  lemma {:induction false} OrZero(a: nat)
    ensures BitOr(a, 0) == a
  {
    if a > 0 { OrZero(a / 2); }
  }

  /** Bits that do not overlap add up. */
  lemma {:induction false} OrDisjoint(a: nat, q: nat, b: nat, s: nat)
    requires a == q * Pow(2, s) && b < Pow(2, s)
    ensures BitOr(a, b) == a + b && BitOr(b, a) == a + b
  {
    if s == 0 {
      OrZero(a);
      OrCommutes(a, b);
    } else {
      Assoc(q, 2, Pow(2, s - 1));
      assert a == 2 * (q * Pow(2, s - 1));
      OrDisjoint(a / 2, q, b / 2, s - 1);
    }
  }

  lemma {:induction false} OrCommutes(a: nat, b: nat)
    ensures BitOr(a, b) == BitOr(b, a)
  {
    if a > 0 || b > 0 { OrCommutes(a / 2, b / 2); }
  }

  lemma BaseIsPow()
    ensures Pow(2, 32) == BASE
  {
    assert Pow(2, 8) == 256;
    PowAdd(2, 8, 8);
    PowAdd(2, 16, 16);
  }

  /** 2^s and 2^(32 - s) make a limb. */
  lemma SplitBase(s: nat)
    requires s <= 32
    ensures Pow(2, s) * Pow(2, 32 - s) == BASE && Pow(2, s) > 0 && Pow(2, 32 - s) > 0
  {
    BaseIsPow();
    PowAdd(2, s, 32 - s);
    PowPositive(2, s);
    PowPositive(2, 32 - s);
  }

  /** A limb times 2^s: the low part stays, the high part goes to the next limb. */
  lemma ShiftUp(x: nat, s: nat)
    requires x < BASE && s < 32
    ensures Pow(2, s) > 0 && Pow(2, 32 - s) > 0
    ensures x * Pow(2, s) == (x * Pow(2, s)) % BASE + BASE * (x / Pow(2, 32 - s))
    ensures (x * Pow(2, s)) % BASE == (x % Pow(2, 32 - s)) * Pow(2, s)
    ensures 0 <= x / Pow(2, 32 - s) < Pow(2, s)
  {
    hide Pow;
    SplitBase(s);
    SplitProduct(x, Pow(2, 32 - s), Pow(2, s), BASE);
    DivLess(x, Pow(2, 32 - s), Pow(2, s));
  }

  /** Multiplying by r moves the quotient by p past p * r, and the remainder by p up to it. */
  lemma SplitProduct(x: nat, p: nat, r: nat, base: nat)
    requires p > 0 && r > 0 && base == p * r
    ensures base > 0 && x * r == (x % p) * r + base * (x / p) && (x * r) % base == (x % p) * r && (x * r) / base == x / p
  {
    var h, l := x / p, x % p;
    MulPositive(p, r);
    assert x == h * p + l;
    Distribute(h * p, l, r);
    Assoc(h, p, r);
    MulLess(l, p, r);
    MulMono(0, l, r);
    DivModUnique(x * r, h, l * r, base);
  }

  lemma {:induction false} MulLess(a: nat, b: nat, c: nat)
    requires a < b && c > 0
    ensures a * c < b * c
  {
    MulMono(a + 1, b, c);
    Distribute(a, 1, c);
  }

  lemma DivLess(x: nat, r: nat, p: nat)
    requires r > 0 && x < p * r
    ensures 0 <= x / r < p
  {
    if x / r >= p { MulMono(p, x / r, r); }
  }

  // ---------------------------------------------------------------- shift to the left

  /** What stays in a limb shifted up by s bits, and what goes to the next one. */
  function Low(x: nat, s: nat): nat
    requires s < 32
  {
    x * Pow(2, s) % BASE
  }

  function High(x: nat, s: nat): nat
    requires s < 32
  {
    PowPositive(2, 32 - s);
    x / Pow(2, 32 - s)
  }

  lemma ShiftParts(x: nat, s: nat)
    requires x < BASE && s < 32
    ensures Times(x, Pow(2, s)) == Low(x, s) + BASE * High(x, s) && High(x, s) < Pow(2, s) <= BASE && Low(x, s) < BASE
    ensures s == 0 ==> High(x, s) == 0
  {
    ShiftUp(x, s);
    SplitBase(s);
    MulAtLeast(Pow(2, s), Pow(2, 32 - s));
  }

  lemma LowMultiple(x: nat, s: nat) returns (q: nat)
    requires x < BASE && s < 32
    ensures Low(x, s) == q * Pow(2, s) && Low(x, s) + Pow(2, s) <= BASE
  {
    ShiftUp(x, s);
    SplitBase(s);
    q := x % Pow(2, 32 - s);
    Room(q, Pow(2, s), Pow(2, 32 - s));
  }

  /** A multiple of p below p * r leaves room for p. */
  lemma Room(q: nat, p: nat, r: nat)
    requires q * p < p * r && p > 0
    ensures q * p + p <= p * r
  {
    if q >= r { MulMono(r, q, p); }
    MulMono(q + 1, r, p);
    Distribute(q, 1, p);
  }

  /** The low part leaves room for what came from the limb before. */
  lemma OrRoom(x: nat, s: nat, b: nat)
    requires x < BASE && s < 32 && b < Pow(2, s)
    ensures BitOr(b, Low(x, s)) == b + Low(x, s) < BASE && BitOr(0, High(x, s)) == High(x, s)
  {
    hide Low, High, Pow;
    var q := LowMultiple(x, s);
    OrDisjoint(Low(x, s), q, b, s);
    OrZero(High(x, s));
    OrCommutes(0, High(x, s));
  }

  /** The state of a shift to the left before limb i is moved. */
  ghost predicate Shifting(pn: seq<u32>, a: seq<u32>, i: nat, k: nat, s: nat, q: int) {
    && |pn| == |a| && i <= |a| && s < 32
    && (forall m :: i + k < m < |pn| ==> pn[m] == 0)
    && (i + k < |pn| ==> pn[i + k] as nat < Pow(2, s))
    && Value(pn) + At(q, |pn|) == Times(Value(a[..i]), At(Pow(2, s), k))
  }

  lemma ShiftSum(a: seq<u32>, i: nat, k: nat, s: nat)
    requires i < |a| && s < 32
    ensures Times(Value(a[..i + 1]), At(Pow(2, s), k)) == Times(Value(a[..i]), At(Pow(2, s), k)) + At(Low(a[i] as nat, s), i + k) + At(High(a[i] as nat, s), i + k + 1)
  {
    hide At, Value, Times, Low, High;
    var x, p := a[i] as nat, Pow(2, s);
    ValueNext(a, i);
    TimesAdd(Value(a[..i]), At(x, i), At(p, k));
    AtTimes(x, i, p, k);
    TimesIs(x, p);
    ShiftParts(x, s);
    AtAdd(Low(x, s), BASE * High(x, s), i + k);
    AtCarry(High(x, s), i + k);
  }

  lemma ShiftDropped(pn: seq<u32>, a: seq<u32>, i: nat, k: nat, s: nat, q: int) returns (q': int)
    requires Shifting(pn, a, i, k, s, q) && i < |a| && i + k >= |pn|
    ensures Shifting(pn, a, i + 1, k, s, q')
  {
    hide At, Value, Times, Low, High;
    var w, x := |pn|, a[i] as nat;
    ShiftSum(a, i, k, s);
    AtHigher(Low(x, s), i + k, w);
    AtHigher(High(x, s), i + k + 1, w);
    q' := q + (At(Low(x, s), i + k - w) + At(High(x, s), i + k + 1 - w));
    AtAdd(q, At(Low(x, s), i + k - w) + At(High(x, s), i + k + 1 - w), w);
    AtAdd(At(Low(x, s), i + k - w), At(High(x, s), i + k + 1 - w), w);
  }

  lemma ShiftStored(pn: seq<u32>, a: seq<u32>, i: nat, k: nat, s: nat, q: int, pn': seq<u32>) returns (q': int)
    requires Shifting(pn, a, i, k, s, q) && i < |a| && i + k < |pn| && |pn'| == |pn|
    requires var x := a[i] as nat;
      && pn[i + k] as nat + Low(x, s) < BASE && High(x, s) < BASE
      && pn' == (if i + k + 1 < |pn| then pn[i + k + 1 := High(x, s) as u32] else pn)[i + k := (pn[i + k] as nat + Low(x, s)) as u32]
    ensures Shifting(pn', a, i + 1, k, s, q')
  {
    hide At, Value, Times, Low, High;
    var w, x, m := |pn|, a[i] as nat, i + k;
    ShiftSum(a, i, k, s);
    ShiftParts(x, s);
    var t := if m + 1 < w then pn[m + 1 := High(x, s) as u32] else pn;
    if m + 1 < w {
      ValueWrite(pn, m + 1, High(x, s) as u32);
      AtZero(m + 1);
      q' := q;
    } else {
      q' := q + High(x, s);
      AtAdd(q, High(x, s), w);
    }
    ValueWrite(t, m, (pn[m] as nat + Low(x, s)) as u32);
    AtAdd(pn[m] as int, Low(x, s), m);
  }

  method ShlAssign(pn: array<u32>, shift: nat)
    modifies pn
    ensures Value(pn[..]) == Wrap(old(Value(pn[..])) * Pow(2, shift), pn.Length)
  {
    hide At, Value, Times, Wrap, Modulus, Pow, Low, High, BitOr;
    var a := new u32[pn.Length](i requires 0 <= i < pn.Length reads pn => pn[i]);
    ghost var x := a[..];
    assert x == pn[..];
    var i := 0;
    while i < pn.Length
      invariant 0 <= i <= pn.Length && (forall m :: 0 <= m < i ==> pn[m] == 0) && a[..] == x
    {
      pn[i] := 0;
      i := i + 1;
    }
    var k, s := shift / 32, shift % 32;
    ghost var q := 0;
    ShiftStart(pn[..], x, k, s);
    i := 0;
    while i < pn.Length
      invariant 0 <= i <= pn.Length && a[..] == x && a != pn && Shifting(pn[..], x, i, k, s, q)
    {
      ghost var before := pn[..];
      ShiftParts(a[i] as nat, s);
      if i + k < pn.Length { OrRoom(a[i] as nat, s, pn[i + k] as nat); } else { OrRoom(a[i] as nat, s, 0); }
      if i + k + 1 < pn.Length && s != 0 {
        pn[i + k + 1] := BitOr(pn[i + k + 1] as nat, High(a[i] as nat, s)) as u32;
      }
      if i + k < pn.Length {
        pn[i + k] := BitOr(pn[i + k] as nat, Low(a[i] as nat, s)) as u32;
        q := ShiftStored(before, x, i, k, s, q, pn[..]);
      } else {
        q := ShiftDropped(before, x, i, k, s, q);
        assert pn[..] == before;
      }
      i := i + 1;
    }
    assert x[..i] == x;
    ValueBound(pn[..]);
    PowShift(shift);
    TimesIs(Value(x), At(Pow(2, s), k));
    WrapIs(Value(x) * Pow(2, shift), q, Value(pn[..]), pn.Length);
  }

  lemma ShiftStart(pn: seq<u32>, a: seq<u32>, k: nat, s: nat)
    requires |pn| == |a| && s < 32 && forall m :: 0 <= m < |pn| ==> pn[m] == 0
    ensures Shifting(pn, a, 0, k, s, 0)
  {
    hide At, Times;
    ValueZero(pn);
    AtZero(|pn|);
    PowPositive(2, s);
    TimesIs(0, At(Pow(2, s), k));
    assert a[..0] == [];
  }

  lemma PowShift(shift: nat)
    ensures Pow(2, shift) == At(Pow(2, shift % 32), shift / 32)
  {
    BaseIsPow();
    PowPow(2, 32, shift / 32);
    PowAdd(2, shift % 32, 32 * (shift / 32));
  }

  // ---------------------------------------------------------------- shift to the right

  /** The quotient and the remainder of a limb by 2^s; the remainder fills the top of the limb below. */
  lemma DownParts(x: nat, s: nat)
    requires x < BASE && s < 32
    ensures var p := Pow(2, s); p > 0 && x == Times(x / p, p) + x % p && 0 <= x % p < p && 0 <= x / p < Pow(2, 32 - s) <= BASE
    ensures s > 0 ==> var p := Pow(2, s); p > 0 && Times(Low(x, 32 - s), p) == BASE * (x % p)
  {
    hide Low;
    SplitBase(s);
    var p, r := Pow(2, s), Pow(2, 32 - s);
    MulAtLeast(r, p);
    DivLess(x, p, r);
    if s > 0 { DownLow(x, s); }
  }

  lemma DownLow(x: nat, s: nat)
    requires x < BASE && 0 < s < 32
    ensures Pow(2, s) > 0 && Times(Low(x, 32 - s), Pow(2, s)) == BASE * (x % Pow(2, s))
  {
    hide Pow;
    SplitBase(s);
    var p, r := Pow(2, s), Pow(2, 32 - s);
    SplitProduct(x, p, r, BASE);
    Assoc(x % p, r, p);
  }

  /** The state of a shift to the right before limb i is moved: quotient, and remainder of the limbs before. */
  ghost predicate Falling(pn: seq<u32>, a: seq<u32>, i: nat, k: nat, s: nat, rem: int) {
    && |pn| == |a| && i <= |a| && s < 32
    && (forall m :: 0 <= m < |pn| && m >= i - k ==> pn[m] == 0)
    && (0 <= i - k - 1 < |pn| ==> pn[i - k - 1] as nat < Pow(2, 32 - s))
    && Times(Value(pn), At(Pow(2, s), k)) + rem == Value(a[..i])
    && (if i <= k then Value(pn) == 0 && 0 <= rem < At(1, i) else 0 <= rem < At(Pow(2, s), k))
  }

  lemma FallStart(pn: seq<u32>, a: seq<u32>, k: nat, s: nat)
    requires |pn| == |a| && s < 32 && forall m :: 0 <= m < |pn| ==> pn[m] == 0
    ensures Falling(pn, a, 0, k, s, 0)
  {
    hide Times;
    ValueZero(pn);
    AtZero(0);
    TimesIs(0, At(Pow(2, s), k));
    assert a[..0] == [];
  }

  lemma FallBelow(pn: seq<u32>, a: seq<u32>, i: nat, k: nat, s: nat, rem: int) returns (rem': int)
    requires Falling(pn, a, i, k, s, rem) && i < |a| && i < k
    ensures Falling(pn, a, i + 1, k, s, rem')
  {
    hide At, Value, Times;
    TimesIs(0, At(Pow(2, s), k));
    ValueNext(a, i);
    rem' := rem + At(a[i] as int, i);
    AtMono(a[i] as int, BASE - 1, i);
    AtAdd(BASE - 1, 1, i);
    AtCarry(1, i);
  }

  lemma FallFirst(pn: seq<u32>, a: seq<u32>, i: nat, s: nat, rem: int) returns (rem': int)
    requires Falling(pn, a, i, i, s, rem) && i < |a| && Pow(2, s) > 0
    ensures Falling(pn[0 := (a[i] as nat / Pow(2, s)) as u32], a, i + 1, i, s, rem')
  {
    hide At, Value, Times, Pow;
    var x, p := a[i] as nat, Pow(2, s);
    DownParts(x, s);
    var h, l := x / p, x % p;
    ValueNext(a, i);
    ValueWrite(pn, 0, h as u32);
    AtZero(0);
    TimesIs(0, At(p, i));
    AtTimes(h, 0, p, i);
    TimesIs(h, p);
    AtAdd(h * p, l, i);
    rem' := rem + At(l, i);
    AtAdd(l, 1, i);
    AtMono(l + 1, p, i);
    AtMono(l, p, i);
  }

  lemma FallNext(pn: seq<u32>, a: seq<u32>, i: nat, k: nat, s: nat, rem: int, pn': seq<u32>)
    requires Falling(pn, a, i, k, s, rem) && k < i < |a| && |pn'| == |pn| && Pow(2, s) > 0
    requires var x, m := a[i] as nat, i - k;
      && (if s > 0 then pn[m - 1] as nat + Low(x, 32 - s) < BASE else true)
      && pn' == (if s > 0 then pn[m - 1 := (pn[m - 1] as nat + Low(x, 32 - s)) as u32] else pn)[m := (x / Pow(2, s)) as u32]
    ensures Falling(pn', a, i + 1, k, s, rem)
  {
    hide At, Value, Times, Pow, Low;
    var x, p, m := a[i] as nat, Pow(2, s), i - k;
    DownParts(x, s);
    var h, l := x / p, x % p;
    ValueNext(a, i);
    var t := if s > 0 then pn[m - 1 := (pn[m - 1] as nat + Low(x, 32 - s)) as u32] else pn;
    var low := if s > 0 then Low(x, 32 - s) else 0;
    if s > 0 {
      ValueWrite(pn, m - 1, (pn[m - 1] as nat + low) as u32);
      AtAdd(pn[m - 1] as int, low, m - 1);
    }
    AtZero(m - 1);
    assert Value(t) == Value(pn) + At(low, m - 1);
    ValueWrite(t, m, h as u32);
    AtZero(m);
    FallWorth(x, s, i, k, low);
    TimesAdd(Value(pn), At(low, m - 1) + At(h, m), At(p, k));
  }

  lemma FallWorth(x: nat, s: nat, i: nat, k: nat, low: nat)
    requires x < BASE && s < 32 && k < i && low == (if s > 0 then Low(x, 32 - s) else 0) && Pow(2, s) > 0
    ensures Times(At(low, i - k - 1) + At(x / Pow(2, s), i - k), At(Pow(2, s), k)) == At(x, i)
  {
    hide At, Times, Low;
    var p, m := Pow(2, s), i - k;
    DownParts(x, s);
    var h, l := x / p, x % p;
    TimesAdd(At(low, m - 1), At(h, m), At(p, k));
    AtTimes(low, m - 1, p, k);
    AtTimes(h, m, p, k);
    TimesIs(low, p);
    TimesIs(h, p);
    assert low * p == BASE * l by { if s == 0 { assert p == 1; } }
    AtCarry(l, i - 1);
    AtAdd(h * p, l, i);
  }

  method ShrAssign(pn: array<u32>, shift: nat)
    modifies pn
    ensures Pow(2, shift) > 0 && Value(pn[..]) == old(Value(pn[..])) / Pow(2, shift)
  {
    hide At, Value, Times, Pow, Low, BitOr;
    var a := new u32[pn.Length](i requires 0 <= i < pn.Length reads pn => pn[i]);
    ghost var x := a[..];
    assert x == pn[..];
    var i := 0;
    while i < pn.Length
      invariant 0 <= i <= pn.Length && (forall m :: 0 <= m < i ==> pn[m] == 0) && a[..] == x
    {
      pn[i] := 0;
      i := i + 1;
    }
    var k, s := shift / 32, shift % 32;
    ghost var rem := 0;
    FallStart(pn[..], x, k, s);
    i := 0;
    while i < pn.Length
      invariant 0 <= i <= pn.Length && a[..] == x && a != pn && Falling(pn[..], x, i, k, s, rem)
    {
      ghost var before := pn[..];
      PowPositive(2, s);
      DownParts(a[i] as nat, s);
      OrZero(a[i] as nat / Pow(2, s));
      OrCommutes(0, a[i] as nat / Pow(2, s));
      if i - k - 1 >= 0 && s != 0 {
        OrRoom(a[i] as nat, 32 - s, pn[i - k - 1] as nat);
        pn[i - k - 1] := BitOr(pn[i - k - 1] as nat, Low(a[i] as nat, 32 - s)) as u32;
      }
      if i - k >= 0 {
        pn[i - k] := BitOr(pn[i - k] as nat, a[i] as nat / Pow(2, s)) as u32;
      }
      if i < k {
        assert pn[..] == before;
        rem := FallBelow(before, x, i, k, s, rem);
      } else if i == k {
        assert pn[..] == before[0 := pn[0]];
        rem := FallFirst(before, x, i, s, rem);
      } else {
        FallNext(before, x, i, k, s, rem, pn[..]);
      }
      i := i + 1;
    }
    assert x[..i] == x;
    FallEnd(pn[..], x, k, s, shift, rem);
  }

  lemma FallEnd(pn: seq<u32>, a: seq<u32>, k: nat, s: nat, shift: nat, rem: int)
    requires Falling(pn, a, |a|, k, s, rem) && k == shift / 32 && s == shift % 32 && a[..|a|] == a
    ensures Pow(2, shift) > 0 && Value(pn) == Value(a) / Pow(2, shift)
  {
    hide At, Value, Times, Pow;
    PowShift(shift);
    PowPositive(2, shift);
    PowPositive(2, s);
    TimesIs(Value(pn), At(Pow(2, s), k));
    if |a| <= k {
      AtGrows(|a|, k);
      AtMono(1, Pow(2, s), k);
    }
    DivModUnique(Value(a), Value(pn), rem, Pow(2, shift));
  }

  lemma AtGrows(i: nat, k: nat)
    requires i <= k
    ensures At(1, i) <= At(1, k)
  {
    PowGrows(BASE, i, k);
  }
}
