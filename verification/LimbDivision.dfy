// Bit length and division of limb arrays (src/arith_uint256.cpp).
module LimbDivision {
  import opened Powers
  import opened Limbs
  import opened LimbShifts

  // ---------------------------------------------------------------- bit length

  lemma AtPow(n: nat, i: nat)
    ensures At(Pow(2, n), i) == Pow(2, 32 * i + n)
  {
    BaseIsPow();
    PowPow(2, 32, i);
    PowAdd(2, n, 32 * i);
  }

  lemma TopBits(s: seq<u32>, pos: nat, n: nat)
    requires pos < |s| && (forall j :: pos < j < |s| ==> s[j] == 0) && Pow(2, n) <= s[pos] as nat < Pow(2, n + 1)
    ensures Pow(2, 32 * pos + n) <= Value(s) < Pow(2, 32 * pos + n + 1)
  {
    hide At, Value, Pow;
    HighZero(s, pos + 1);
    ValueNext(s, pos);
    ValueBound(s[..pos]);
    AtMono(Pow(2, n), s[pos] as int, pos);
    AtAdd(s[pos] as int, 1, pos);
    AtMono(s[pos] as int + 1, Pow(2, n + 1), pos);
    AtPow(n, pos);
    AtPow(n + 1, pos);
  }

  lemma {:induction false} HighZero(s: seq<u32>, m: nat)
    requires m <= |s| && forall j :: m <= j < |s| ==> s[j] == 0
    ensures Value(s) == Value(s[..m])
  {
    hide At;
    if m < |s| {
      var n := |s| - 1;
      HighZero(s[..n], m);
      assert s[..n][..m] == s[..m];
      AtZero(n);
    } else {
      assert s[..m] == s;
    }
  }

  /** The position of the highest bit plus one, or zero. */
  ghost predicate IsBits(v: int, n: nat) {
    (n == 0 ==> v == 0) && (n > 0 ==> Pow(2, n - 1) <= v < Pow(2, n))
  }

  method Bits(pn: array<u32>) returns (n: nat)
    ensures IsBits(Value(pn[..]), n) && n <= 32 * pn.Length
  {
    hide At, Value, Pow;
    var pos := pn.Length;
    while pos > 0
      invariant 0 <= pos <= pn.Length && forall j :: pos <= j < pn.Length ==> pn[j] == 0
    {
      pos := pos - 1;
      if pn[pos] != 0 {
        var nbits := 31;
        BaseIsPow();
        while nbits > 0
          invariant 0 <= nbits <= 31 && pn[pos] as nat < Pow(2, nbits + 1)
        {
          PowPositive(2, nbits);
          TopBit(pn[pos] as nat, nbits);
          if pn[pos] as nat / Pow(2, nbits) % 2 == 1 {
            TopBits(pn[..], pos, nbits);
            return 32 * pos + nbits + 1;
          }
          nbits := nbits - 1;
        }
        PowOne();
        TopBits(pn[..], pos, 0);
        return 32 * pos + 1;
      }
    }
    ValueZero(pn[..]);
    n := 0;
  }

  lemma PowOne()
    ensures Pow(2, 0) == 1 && Pow(2, 1) == 2
  {}

  lemma TopBit(x: nat, n: nat)
    requires x < Pow(2, n + 1) && Pow(2, n) > 0
    ensures x / Pow(2, n) % 2 == 1 <==> x >= Pow(2, n)
  {
    var p := Pow(2, n);
    DivLess(x, p, 2);
    assert x == (x / p) * p + x % p;
  }

  lemma BitsOrder(v: int, n: nat, w: int, m: nat)
    requires IsBits(v, n) && IsBits(w, m) && n < m
    ensures v < w
  {
    hide Pow;
    PowPositive(2, m - 1);
    if n > 0 { PowGrows(2, n, m - 1); }
  }

  // ---------------------------------------------------------------- division

  function Clamp(x: int): nat { if x < 0 then 0 else if x > 32 then 32 else x }

  predicate Multiple(limb: nat, n: nat) {
    PowPositive(2, n);
    limb % Pow(2, n) == 0
  }

  lemma MultipleIs(limb: nat, n: nat) returns (q: nat)
    requires Multiple(limb, n)
    ensures limb == q * Pow(2, n)
  {
    PowPositive(2, n);
    q := limb / Pow(2, n);
  }

  lemma MultipleFrom(limb: nat, q: nat, n: nat)
    requires limb == q * Pow(2, n)
    ensures Multiple(limb, n)
  {
    PowPositive(2, n);
    DivModUnique(limb, q, 0, Pow(2, n));
  }

  /** The lowest t bits are zero. */
  ghost predicate Clear(s: seq<u32>, t: nat) {
    forall j :: 0 <= j < |s| ==> Multiple(s[j] as nat, Clamp(t - 32 * j))
  }

  lemma {:induction false} MultipleLess(limb: nat, n: nat, m: nat)
    requires Multiple(limb, n) && m <= n
    ensures Multiple(limb, m)
  {
    var q := MultipleIs(limb, n);
    PowAdd(2, n - m, m);
    Assoc(q, Pow(2, n - m), Pow(2, m));
    MultipleFrom(limb, q * Pow(2, n - m), m);
  }

  lemma ClearLess(s: seq<u32>, t: nat)
    requires Clear(s, t + 1)
    ensures Clear(s, t)
  {
    hide Multiple;
    forall j | 0 <= j < |s| ensures Multiple(s[j] as nat, Clamp(t - 32 * j)) { MultipleLess(s[j] as nat, Clamp(t + 1 - 32 * j), Clamp(t - 32 * j)); }
  }

  /** Setting a bit below which, and at which, everything is zero. */
  lemma SetBit(s: seq<u32>, shift: nat)
    requires Clear(s, shift + 1) && shift / 32 < |s|
    ensures var m, b := shift / 32, shift % 32;
      && BitOr(s[m] as nat, Pow(2, b)) == s[m] as nat + Pow(2, b) < BASE
      && Clear(s[m := (s[m] as nat + Pow(2, b)) as u32], shift)
      && Value(s[m := (s[m] as nat + Pow(2, b)) as u32]) == Value(s) + Pow(2, shift)
  {
    hide At, Value, Pow, BitOr, Multiple, Clear;
    var m, b := shift / 32, shift % 32;
    ClearAt(s, shift + 1, m);
    var q := MultipleIs(s[m] as nat, b + 1);
    SetRoom(s[m] as nat, q, b);
    OrDisjoint(s[m] as nat, q, Pow(2, b), b + 1);
    var d := (s[m] as nat + Pow(2, b)) as u32;
    SetClear(s, shift, d);
    ValueWrite(s, m, d);
    AtAdd(s[m] as int, Pow(2, b), m);
    PowShift(shift);
  }

  lemma ClearAt(s: seq<u32>, t: nat, j: nat)
    requires Clear(s, t) && j < |s|
    ensures Multiple(s[j] as nat, Clamp(t - 32 * j))
  {}

  lemma SetRoom(limb: nat, q: nat, b: nat)
    requires limb < BASE && b < 32 && limb == q * Pow(2, b + 1)
    ensures limb + Pow(2, b) < BASE && Pow(2, b) < Pow(2, b + 1) && limb + Pow(2, b) == (2 * q + 1) * Pow(2, b)
  {
    PowPositive(2, b);
    assert Pow(2, b + 1) == 2 * Pow(2, b);
    SplitBase(b + 1);
    Room(q, Pow(2, b + 1), Pow(2, 31 - b));
    Distribute(2 * q, 1, Pow(2, b));
    Assoc(q, 2, Pow(2, b));
  }

  lemma SetClear(s: seq<u32>, shift: nat, d: u32)
    requires Clear(s, shift + 1) && shift / 32 < |s| && d as nat == s[shift / 32] as nat + Pow(2, shift % 32)
    ensures Clear(s[shift / 32 := d], shift)
  {
    hide Multiple, Pow;
    var m, b := shift / 32, shift % 32;
    var s' := s[m := d];
    forall j | 0 <= j < |s'| ensures Multiple(s'[j] as nat, Clamp(shift - 32 * j)) {
      if j == m {
        var q := MultipleIs(s[m] as nat, b + 1);
        SetRoom(s[m] as nat, q, b);
        MultipleFrom(d as nat, 2 * q + 1, b);
      } else {
        MultipleLess(s[j] as nat, Clamp(shift + 1 - 32 * j), Clamp(shift - 32 * j));
      }
    }
  }

  /** Before the bit at position shift is tried: what has been subtracted, and what is left. */
  ghost predicate Dividing(n0: int, d0: int, quotient: int, num: int, shift: int) {
    && shift >= -1 && d0 > 0
    && n0 == Times(quotient, d0) + num && 0 <= num < Times(d0, Pow(2, shift + 1))
  }

  lemma DivideStart(n0: int, n: nat, d0: int, m: nat, width: nat)
    requires IsBits(n0, n) && IsBits(d0, m) && 0 < m <= n <= 32 * width
    ensures Dividing(n0, d0, 0, n0, n - m) && Wrap(d0 * Pow(2, n - m), width) == Times(d0, Pow(2, n - m))
  {
    hide Wrap, Modulus;
    var k := n - m;
    PowPositive(2, m - 1);
    PowPositive(2, n - 1);
    PowPositive(2, k);
    TimesIs(0, d0);
    assert n == m - 1 + (k + 1);
    PowAdd(2, m - 1, k + 1);
    MulMono(Pow(2, m - 1), d0, Pow(2, k + 1));
    PowAdd(2, m, k);
    MulLess(d0, Pow(2, m), Pow(2, k));
    MulMono(0, d0, Pow(2, k));
    PowGrows(2, n, 32 * width);
    ModulusPow(width);
    AtZero(width);
    WrapIs(d0 * Pow(2, k), 0, d0 * Pow(2, k), width);
  }

  lemma ModulusPow(width: nat)
    ensures Modulus(width) == Pow(2, 32 * width)
  {
    PowOne();
    AtPow(0, width);
  }

  lemma DivideStep(n0: int, d0: int, quotient: int, num: int, shift: nat)
    requires Dividing(n0, d0, quotient, num, shift)
    ensures var div := Times(d0, Pow(2, shift));
      && (num >= div ==> Dividing(n0, d0, quotient + Pow(2, shift), num - div, shift - 1))
      && (num < div ==> Dividing(n0, d0, quotient, num, shift - 1))
  {
    var p := Pow(2, shift);
    assert Pow(2, shift + 1) == 2 * p;
    assert Times(d0, 2 * p) == 2 * Times(d0, p);
    TimesAdd(quotient, p, d0);
    TimesIs(p, d0);
  }

  /** One place back. */
  lemma ShiftBack(d0: int, shift: nat)
    requires shift > 0
    ensures Times(d0, Pow(2, shift)) / Pow(2, 1) == Times(d0, Pow(2, shift - 1))
  {
    assert Times(d0, Pow(2, shift)) == 2 * Times(d0, Pow(2, shift - 1));
  }

  lemma DivideEnd(n0: int, d0: int, quotient: int, num: int)
    requires Dividing(n0, d0, quotient, num, -1)
    ensures quotient == n0 / d0
  {
    PowOne();
    DivModUnique(n0, quotient, num, d0);
  }

  method Copy(a: array<u32>) returns (b: array<u32>)
    ensures fresh(b) && b[..] == a[..]
  {
    b := new u32[a.Length](i requires 0 <= i < a.Length reads a => a[i]);
  }

  method Zero(pn: array<u32>)
    modifies pn
    ensures forall i :: 0 <= i < pn.Length ==> pn[i] == 0
  {
    forall i | 0 <= i < pn.Length { pn[i] := 0; }
  }

  /** Floor division by shifting and subtracting; division by zero throws, and leaves zero. */
  method DivAssign(pn: array<u32>, b: array<u32>) returns (thrown: bool)
    requires pn.Length == b.Length
    modifies pn
    ensures thrown <==> old(Value(b[..])) == 0
    ensures thrown ==> Value(pn[..]) == 0
    ensures !thrown ==> Value(pn[..]) == old(Value(pn[..])) / old(Value(b[..]))
  {
    hide At, Value, Times, Pow, Wrap, Modulus, Clear, Dividing, BitOr, IsBits;
    var div := Copy(b);
    var num := Copy(pn);
    ghost var n0, d0 := Value(pn[..]), Value(b[..]);
    Zero(pn);
    ValueZero(pn[..]);
    var numBits := Bits(num);
    var divBits := Bits(div);
    ValueBound(num[..]);
    ValueBound(div[..]);
    BitsZero(d0, divBits);
    if divBits == 0 {
      return true;
    }
    thrown := false;
    if divBits > numBits {
      BitsOrder(n0, numBits, d0, divBits);
      return;
    }
    var shift: int := numBits - divBits;
    DivideStart(n0, numBits, d0, divBits, pn.Length);
    ClearZero(pn[..], shift + 1);
    ShlAssign(div, shift);
    ghost var width := pn.Length;
    while shift >= 0
      invariant -1 <= shift < 32 * width && width == pn.Length == num.Length == div.Length
      invariant pn != num && pn != div && num != div && fresh(num) && fresh(div)
      invariant Clear(pn[..], shift + 1) && Dividing(n0, d0, Value(pn[..]), Value(num[..]), shift)
      invariant shift >= 0 ==> Value(div[..]) == Times(d0, Pow(2, shift))
    {
      var sign := CompareTo(num, div);
      DivideStep(n0, d0, Value(pn[..]), Value(num[..]), shift);
      if sign >= 0 {
        SetBit(pn[..], shift);
        ValueBound(num[..]);
        ValueBound(div[..]);
        NoWrap(Value(num[..]), Value(div[..]), width);
        SubAssign(num, div);
        ghost var s := pn[..];
        pn[shift / 32] := BitOr(pn[shift / 32] as nat, Pow(2, shift % 32)) as u32;
        assert pn[..] == s[shift / 32 := pn[shift / 32]];
      } else {
        ClearLess(pn[..], shift);
      }
      if shift > 0 { ShiftBack(d0, shift); }
      ShrAssign(div, 1);
      shift := shift - 1;
    }
    DivideEnd(n0, d0, Value(pn[..]), Value(num[..]));
  }

  lemma NoWrap(x: int, y: int, width: nat)
    requires 0 <= y <= x < Modulus(width)
    ensures Wrap(x - y, width) == x - y
  {
    AtZero(width);
    WrapIs(x - y, 0, x - y, width);
  }

  lemma BitsZero(v: int, n: nat)
    requires IsBits(v, n)
    ensures n == 0 <==> v == 0
  {
    if n > 0 { PowPositive(2, n - 1); }
  }

  lemma ClearZero(s: seq<u32>, t: nat)
    requires forall i :: 0 <= i < |s| ==> s[i] == 0
    ensures Clear(s, t)
  {
    forall j | 0 <= j < |s| ensures Multiple(s[j] as nat, Clamp(t - 32 * j)) { MultipleFrom(0, 0, Clamp(t - 32 * j)); }
  }
}
