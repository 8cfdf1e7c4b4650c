// Compact targets and the work of a block (src/arith_uint256.cpp, src/chain.cpp).
module Compacts {
  import opened Powers
  import opened Limbs
  import opened LimbShifts
  import opened LimbDivision

  const WIDTH := 8

  function Size(c: nat): nat { c / 0x100_0000 }

  function Word(c: nat): nat { c % 0x80_0000 }

  function SignBit(c: nat): bool { c / 0x80_0000 % 2 == 1 }

  /** The number a compact target stands for, without its sign. */
  ghost function Decode(c: nat): nat {
    if Size(c) <= 3 then
      PowPositive(256, 3 - Size(c));
      Word(c) / Pow(256, 3 - Size(c))
    else Word(c) * Pow(256, Size(c) - 3)
  }

  lemma BytePow(n: nat)
    ensures Pow(256, n) == Pow(2, 8 * n)
  {
    PowPow(2, 8, n);
    assert Pow(2, 8) == 256;
  }

  // ---------------------------------------------------------------- decoding

  /** The three conditions of the overflow flag say that the number does not fit. */
  lemma OverflowIs(word: nat, size: nat)
    requires word < 0x80_0000 && size > 3
    ensures word != 0 && (size > 34 || (word > 0xff && size > 33) || (word > 0xffff && size > 32)) <==> word * Pow(256, size - 3) >= Modulus(WIDTH)
  {
    hide Pow, Modulus;
    ModulusPow(WIDTH);
    BytePow(32);
    var e := size - 3;
    SmallPows();
    if e >= 32 {
      FarUp(word, e);
    } else {
      PowAdd(256, 32 - e, e);
      PowPositive(256, e);
      Fits(word, Pow(256, 32 - e), Pow(256, e));
      if 32 - e >= 3 { PowGrows(256, 3, 32 - e); }
    }
  }

  lemma FarUp(word: nat, e: nat)
    requires e >= 32
    ensures word * Pow(256, e) >= Pow(256, 32) <==> word != 0
  {
    PowGrows(256, 32, e);
    PowPositive(256, 32);
    if word > 0 { MulAtLeast(Pow(256, e), word); }
  }

  lemma SmallPows()
    ensures Pow(256, 0) == 1 && Pow(256, 1) == 0x100 && Pow(256, 2) == 0x1_0000 && Pow(256, 3) == 0x100_0000
  {
    assert Pow(256, 2) == 256 * Pow(256, 1);
  }

  lemma Fits(word: nat, a: nat, b: nat)
    requires b > 0
    ensures word * b >= a * b <==> word >= a
  {
    if word >= a { MulMono(a, word, b); } else { MulLess(word, a, b); }
  }

  method SetValue(pn: array<u32>, v: u32)
    requires pn.Length == WIDTH
    modifies pn
    ensures Value(pn[..]) == v as int
  {
    hide At, Value;
    Zero(pn);
    ValueZero(pn[..]);
    ghost var s := pn[..];
    ValueWrite(s, 0, v);
    AtZero(0);
    AtIs(v as int);
    pn[0] := v;
    assert pn[..] == s[0 := v];
  }

  lemma AtIs(v: int)
    ensures At(v, 0) == v
  {}

  /** Both flags and the value, reduced to the width. */
  method SetCompact(pn: array<u32>, c: u32) returns (negative: bool, overflow: bool)
    requires pn.Length == WIDTH
    modifies pn
    ensures Value(pn[..]) == Wrap(Decode(c as nat), WIDTH)
    ensures overflow <==> Decode(c as nat) >= Modulus(WIDTH)
    ensures negative <==> Decode(c as nat) != 0 && SignBit(c as nat)
  {
    hide At, Value, Wrap, Modulus, Pow;
    var size := c as nat / 0x100_0000;
    var word := c as nat % 0x80_0000;
    if size <= 3 {
      BytePow(3 - size);
      PowPositive(2, 8 * (3 - size));
      Shrinks(word, Pow(2, 8 * (3 - size)));
      word := word / Pow(2, 8 * (3 - size));
      SetValue(pn, word as u32);
      SmallFits(word);
    } else {
      SetValue(pn, word as u32);
      BytePow(size - 3);
      OverflowIs(word, size);
      PowPositive(256, size - 3);
      Nonzero(word, Pow(256, size - 3));
      ShlAssign(pn, 8 * (size - 3));
    }
    negative := word != 0 && c as nat / 0x80_0000 % 2 == 1;
    overflow := word != 0 && (size > 34 || (word > 0xff && size > 33) || (word > 0xffff && size > 32));
  }

  lemma Shrinks(a: nat, b: nat)
    requires b > 0
    ensures 0 <= a / b <= a
  {
    DivLess(a, b, a + 1) by { MulAtLeast(a + 1, b); }
  }

  lemma Nonzero(a: nat, b: nat)
    requires b > 0
    ensures a * b != 0 <==> a != 0
  {
    if a > 0 { MulPositive(a, b); }
  }

  lemma SmallFits(v: nat)
    requires v < 0x80_0000
    ensures v < Modulus(WIDTH) && Wrap(v, WIDTH) == v
  {
    ModulusPow(WIDTH);
    BaseIsPow();
    PowGrows(2, 32, 32 * WIDTH);
    AtZero(WIDTH);
    WrapIs(v, 0, v, WIDTH);
  }

  // ---------------------------------------------------------------- encoding

  /** The number of bytes of v. */
  ghost predicate IsBytes(v: nat, n: nat) {
    (n == 0 ==> v == 0) && (n > 0 ==> Pow(256, n - 1) <= v < Pow(256, n))
  }

  ghost function BytesOf(v: nat): (n: nat)
    ensures IsBytes(v, n)
  {
    if v == 0 then 0 else
      BytesUp(v, BytesOf(v / 256));
      1 + BytesOf(v / 256)
  }

  lemma BytesUp(v: nat, n: nat)
    requires v > 0 && IsBytes(v / 256, n)
    ensures IsBytes(v, n + 1)
  {}

  lemma BytesUnique(v: nat, m: nat, n: nat)
    requires IsBytes(v, m) && IsBytes(v, n)
    ensures m == n
  {
    hide Pow;
    if m > n {
      PowGrows(256, n, m - 1);
      PowPositive(256, m - 1);
    } else if n > m {
      PowGrows(256, m, n - 1);
      PowPositive(256, n - 1);
    }
  }

  lemma BitsToBytes(v: nat, bits: nat)
    requires IsBits(v, bits)
    ensures IsBytes(v, (bits + 7) / 8)
  {
    var n := (bits + 7) / 8;
    if bits > 0 {
      BytePow(n - 1);
      BytePow(n);
      PowGrows(2, 8 * (n - 1), bits - 1);
      PowGrows(2, bits, 8 * n);
    }
  }

  lemma BytesBound(v: nat, n: nat)
    requires IsBytes(v, n)
    ensures v < Pow(256, n)
  {}

  /** Mantissa of three bytes, before room for the sign is made. */
  ghost function Mantissa(v: nat, n: nat): nat {
    if n <= 3 then v * Pow(256, 3 - n) else
      PowPositive(256, n - 3);
      v / Pow(256, n - 3)
  }

  lemma MantissaBound(v: nat, n: nat)
    requires IsBytes(v, n)
    ensures Mantissa(v, n) < 0x100_0000 && (n > 0 ==> Mantissa(v, n) >= 0x1_0000)
  {
    SmallPows();
    if n == 0 {
    } else if n <= 3 {
      PowAdd(256, n, 3 - n);
      PowAdd(256, n - 1, 3 - n);
      PowPositive(256, 3 - n);
      MulLess(v, Pow(256, n), Pow(256, 3 - n));
      MulMono(Pow(256, n - 1), v, Pow(256, 3 - n));
    } else {
      PowAdd(256, 3, n - 3);
      PowAdd(256, 2, n - 3);
      PowPositive(256, n - 3);
      DivLess(v, Pow(256, n - 3), Pow(256, 3));
      DivAtLeast(v, Pow(256, n - 3), Pow(256, 2));
    }
  }

  lemma DivAtLeast(x: nat, r: nat, p: nat)
    requires r > 0 && x >= p * r
    ensures x / r >= p
  {
    assert x == (x / r) * r + x % r;
    Distribute(x / r, 1, r);
    if x / r < p { MulMono(x / r + 1, p, r); }
  }

  /** The compact form of v, which has n bytes. */
  ghost function Encode(v: nat, n: nat): nat {
    var m := Mantissa(v, n);
    if m >= 0x80_0000 then (n + 1) * 0x100_0000 + m / 0x100 else n * 0x100_0000 + m
  }

  /** The compact form of v. */
  ghost function Compact(v: nat): nat { Encode(v, BytesOf(v)) }

  method GetCompact(pn: array<u32>, negative: bool) returns (c: u32)
    requires pn.Length == WIDTH
    ensures Value(pn[..]) >= 0
    ensures c as nat == Compact(Value(pn[..])) + if negative && Word(Compact(Value(pn[..]))) != 0 then 0x80_0000 else 0
  {
    hide At, Value, Pow, IsBits, IsBytes, Mantissa, BytesOf;
    var bits := Bits(pn);
    ValueBound(pn[..]);
    ghost var v: nat := Value(pn[..]);
    BitsToBytes(v, bits);
    var size := (bits + 7) / 8;
    ghost var n := size;
    BytesUnique(v, n, BytesOf(v));
    MantissaBound(v, n);
    BytesBound(v, n);
    SmallPows();
    var compact: nat;
    if size <= 3 {
      BytePow(3 - size);
      MantissaIs(v, n);
      var low := GetLow64(pn, size);
      compact := low * Pow(2, 8 * (3 - size));
    } else {
      BytePow(size - 3);
      MantissaIs(v, n);
      var bn := Copy(pn);
      ShrAssign(bn, 8 * (size - 3));
      compact := GetLow64(bn, 3);
    }
    if compact >= 0x80_0000 {
      compact := compact / 0x100;
      size := size + 1;
    }
    var sum := compact + size * 0x100_0000;
    c := (if negative && sum % 0x80_0000 != 0 then sum + 0x80_0000 else sum) as u32;
  }

  lemma MantissaIs(v: nat, n: nat)
    ensures n <= 3 ==> Mantissa(v, n) == v * Pow(256, 3 - n)
    ensures n > 3 ==> Pow(256, n - 3) > 0 && Mantissa(v, n) == v / Pow(256, n - 3)
  {
    PowPositive(256, if n > 3 then n - 3 else 0);
  }

  /** The lowest two limbs, which are the whole number here. */
  method GetLow64(pn: array<u32>, ghost n: nat) returns (v: nat)
    requires pn.Length == WIDTH && n <= 3 && Value(pn[..]) < Pow(256, n)
    ensures v == Value(pn[..])
  {
    hide At, Value, Pow;
    v := pn[0] as nat + 0x1_0000_0000 * pn[1] as nat;
    LowIs(pn[..], n);
  }

  lemma LowIs(s: seq<u32>, n: nat)
    requires |s| == WIDTH && n <= 3 && Value(s) < Pow(256, n)
    ensures Value(s) == s[0] as int + 0x1_0000_0000 * s[1] as int
  {
    hide At, Value, Pow;
    PowGrows(256, n, 3);
    SmallPows();
    var t := ValueHigh(s, 1);
    ValueNext(s, 0);
    AtIs(s[0] as int);
    assert s[..0] == [];
    Nothing(s[..0], [], []);
    AtCarry(t, 0);
    AtIs(BASE * t);
    assert t == 0;
    var u := ValueHigh(s, 2);
    ValueNext(s, 1);
    AtCarry(s[1] as int, 0);
    AtIs(BASE * s[1] as int);
    AtMono(0, u, 2);
    AtZero(2);
  }

  // ---------------------------------------------------------------- the round trip

  /** How many low bytes are lost. */
  ghost function Lost(v: nat, n: nat): nat {
    var e := if Mantissa(v, n) >= 0x80_0000 then n - 2 else n - 3;
    if e < 0 then 0 else e
  }

  /** Encoding and decoding clears the lowest bytes, and nothing else: it rounds down. */
  lemma RoundsDown(v: nat, n: nat)
    requires IsBytes(v, n)
    ensures Pow(256, Lost(v, n)) > 0 && Decode(Encode(v, n)) == v - v % Pow(256, Lost(v, n))
    ensures Lost(v, n) > 0 ==> Lost(v, n) <= n - 2
    ensures !SignBit(Encode(v, n))
  {
    hide Pow, Decode, Mantissa;
    var m := Mantissa(v, n);
    MantissaBound(v, n);
    MantissaIs(v, n);
    PowPositive(256, Lost(v, n));
    SmallPows();
    var size, word := if m >= 0x80_0000 then n + 1 else n, if m >= 0x80_0000 then m / 0x100 else m;
    assert Encode(v, n) == size * 0x100_0000 + word;
    DecodeIs(size, word);
    if size <= 3 {
      SmallSize(v, n, m);
    } else if n <= 3 {
      assert n == 3 && m == v;
    } else if m >= 0x80_0000 {
      DivTwice(v, Pow(256, n - 3), 0x100);
      PowAdd(256, n - 3, 1);
    }
    assert v == (v / Pow(256, Lost(v, n))) * Pow(256, Lost(v, n)) + v % Pow(256, Lost(v, n));
  }

  lemma DecodeIs(size: nat, word: nat)
    requires word < 0x80_0000
    ensures Size(size * 0x100_0000 + word) == size && Word(size * 0x100_0000 + word) == word && !SignBit(size * 0x100_0000 + word)
    ensures Decode(size * 0x100_0000 + word) == if size <= 3 then (PowPositive(256, 3 - size); word / Pow(256, 3 - size)) else word * Pow(256, size - 3)
  {
    hide Pow;
    var c := size * 0x100_0000 + word;
    assert c / 0x100_0000 == size && c % 0x80_0000 == word && c / 0x80_0000 == 2 * size;
  }

  lemma SmallSize(v: nat, n: nat, m: nat)
    requires n <= 3 && m == v * Pow(256, 3 - n) && (m >= 0x80_0000 ==> n < 3) && m < 0x100_0000
    ensures var size, word := if m >= 0x80_0000 then n + 1 else n, if m >= 0x80_0000 then m / 0x100 else m;
      Pow(256, 3 - size) > 0 && word / Pow(256, 3 - size) == v
  {
    var size := if m >= 0x80_0000 then n + 1 else n;
    PowPositive(256, 3 - n);
    PowPositive(256, 3 - size);
    DivModUnique(m, v, 0, Pow(256, 3 - n));
    if m >= 0x80_0000 {
      assert Pow(256, 3 - n) == 256 * Pow(256, 2 - n);
      assert m == (v * Pow(256, 2 - n)) * 256;
      DivModUnique(v * Pow(256, 2 - n), v, 0, Pow(256, 2 - n));
    }
  }

  lemma DivTwice(v: nat, a: nat, b: nat)
    requires a > 0 && b > 0
    ensures a * b > 0 && v / a / b == v / (a * b)
  {
    MulPositive(a, b);
    var q, r := v / a, v % a;
    var q', r' := q / b, q % b;
    assert v == q * a + r && q == q' * b + r';
    assert v == q' * (a * b) + (r' * a + r) by {
      Distribute(q' * b, r', a);
      Assoc(q', b, a);
    }
    MulMono(r' + 1, b, a);
    Distribute(r', 1, a);
    DivModUnique(v, q', r' * a + r, a * b);
  }

  /** What has been encoded once is encoded the same again. */
  lemma EncodeFixed(v: nat, n: nat)
    requires IsBytes(v, n)
    ensures IsBytes(Decode(Encode(v, n)), n) && Encode(Decode(Encode(v, n)), n) == Encode(v, n)
  {
    hide Pow, Decode, Mantissa, Encode;
    RoundsDown(v, n);
    var e := Lost(v, n);
    var w := Decode(Encode(v, n));
    assert w == v - v % Pow(256, e);
    if e > 0 {
      SameBytes(v, n, e);
      SameMantissa(v, n, e);
    } else {
      SmallPows();
    }
    SameEncode(v, w, n);
  }

  lemma SameEncode(v: nat, w: nat, n: nat)
    requires Mantissa(v, n) == Mantissa(w, n) || (Mantissa(v, n) >= 0x80_0000 && Mantissa(w, n) >= 0x80_0000 && Mantissa(v, n) / 0x100 == Mantissa(w, n) / 0x100)
    ensures Encode(v, n) == Encode(w, n)
  {}

  /** Clearing what is below p keeps the number above every multiple of p below it. */
  lemma ClearLow(v: nat, p: nat, k: nat)
    requires p > 0 && v >= k * p
    ensures 0 <= v % p && k * p <= v - v % p <= v && v - v % p == (v / p) * p
  {
    assert v == (v / p) * p + v % p;
    DivAtLeast(v, p, k);
    MulMono(k, v / p, p);
  }

  lemma SameBytes(v: nat, n: nat, e: nat)
    requires IsBytes(v, n) && 0 < e <= n - 2
    ensures Pow(256, e) > 0 && v - v % Pow(256, e) >= 0 && IsBytes(v - v % Pow(256, e), n)
  {
    hide Pow;
    PowPositive(256, e);
    PowAdd(256, n - 1 - e, e);
    ClearLow(v, Pow(256, e), Pow(256, n - 1 - e));
  }

  lemma SameMantissa(v: nat, n: nat, e: nat)
    requires IsBytes(v, n) && e == Lost(v, n) && 0 < e <= n - 2
    ensures Pow(256, e) > 0 && v - v % Pow(256, e) >= 0
    ensures var w: nat := v - v % Pow(256, e);
      if Mantissa(v, n) < 0x80_0000 then Mantissa(w, n) == Mantissa(v, n)
      else Mantissa(w, n) >= 0x80_0000 && Mantissa(w, n) / 0x100 == Mantissa(v, n) / 0x100
  {
    hide Pow, Mantissa;
    var p := Pow(256, e);
    PowPositive(256, e);
    ClearLow(v, p, 0);
    var w: nat, q := v - v % p, v / p;
    MantissaIs(v, n);
    MantissaIs(w, n);
    SmallPows();
    if Mantissa(v, n) < 0x80_0000 || n == 3 {
      DivModUnique(w, q, 0, p);
    } else {
      PowPositive(256, n - 3);
      PowAdd(256, n - 3, 1);
      DropByte(v, Pow(256, n - 3), w);
    }
  }

  /** The mantissa loses its last byte, and only that. */
  lemma DropByte(v: nat, a: nat, w: nat)
    requires a > 0 && w == (v / (a * 256)) * (a * 256) && v / a >= 0x80_0000
    ensures w / a / 0x100 == v / a / 0x100 && w / a >= 0x80_0000
  {
    DivTwice(v, a, 0x100);
    var q := v / (a * 256);
    assert w == (q * 256) * a;
    DivModUnique(w, q * 256, 0, a);
  }

  /**
   * The compact form of v stands for the largest number not above v that has a compact form at all,
   * and that number is encoded the same again.
   */
  lemma CompactIsBest(v: nat, c: nat)
    requires Decode(c) <= v
    ensures Decode(c) <= Decode(Compact(v)) <= v
    ensures Compact(Decode(Compact(v))) == Compact(v) && !SignBit(Compact(v))
  {
    hide Pow, Decode, Mantissa, Encode, IsBytes;
    var n := BytesOf(v);
    RoundsDown(v, n);
    EncodeFixed(v, n);
    BytesUnique(Decode(Encode(v, n)), n, BytesOf(Decode(Encode(v, n))));
    PowPositive(256, Lost(v, n));
    ClearLow(v, Pow(256, Lost(v, n)), 0);
    var w, k := DecodeForm(c);
    BestBelow(v, n, w, k);
  }

  lemma DecodeForm(c: nat) returns (w: nat, k: nat)
    ensures w < 0x80_0000 && Decode(c) == w * Pow(256, k)
  {
    hide Pow;
    if Size(c) <= 3 {
      PowPositive(256, 3 - Size(c));
      Shrinks(Word(c), Pow(256, 3 - Size(c)));
      w, k := Decode(c), 0;
      SmallPows();
    } else {
      w, k := Word(c), Size(c) - 3;
    }
  }

  lemma BestBelow(v: nat, n: nat, w: nat, k: nat)
    requires IsBytes(v, n) && w < 0x80_0000 && w * Pow(256, k) <= v
    ensures Pow(256, Lost(v, n)) > 0 && w * Pow(256, k) <= v - v % Pow(256, Lost(v, n))
  {
    hide Pow, IsBytes, Mantissa;
    var e := Lost(v, n);
    PowPositive(256, e);
    if e == 0 {
      SmallPows();
    } else if k >= e {
      PowAdd(256, k - e, e);
      Assoc(w, Pow(256, k - e), Pow(256, e));
      ClearLow(v, Pow(256, e), w * Pow(256, k - e));
    } else {
      TopIsLarge(v, n);
      PowGrows(256, k, e - 1);
      PowAdd(256, e - 1, 1);
      SmallPows();
      ShortWord(w, Pow(256, k), Pow(256, e - 1));
      ClearLow(v, Pow(256, e), 0x8000);
    }
  }

  lemma ShortWord(w: nat, p: nat, q: nat)
    requires w < 0x80_0000 && p <= q
    ensures w * p <= 0x8000 * (q * 0x100)
  {
    MulMono(p, q, w);
    MulMono(w, 0x80_0000, q);
  }

  lemma TopIsLarge(v: nat, n: nat)
    requires IsBytes(v, n) && Lost(v, n) > 0
    ensures v >= 0x8000 * Pow(256, Lost(v, n))
  {
    hide Pow, IsBytes, Mantissa;
    var e, m := Lost(v, n), Mantissa(v, n);
    MantissaBound(v, n);
    MantissaIs(v, n);
    SmallPows();
    if n <= 3 {
      assert m == v && e == 1;
    } else {
      var a := Pow(256, n - 3);
      PowPositive(256, n - 3);
      assert v == m * a + v % a;
      if m >= 0x80_0000 {
        PowAdd(256, n - 3, 1);
        MulMono(0x80_0000, m, a);
      } else {
        MulMono(0x8000, m, a);
      }
    }
  }

  // ---------------------------------------------------------------- the work of a block

  /** A target that a block can have. */
  ghost predicate Valid(c: nat) {
    0 < Decode(c) < Modulus(WIDTH) && !SignBit(c)
  }

  /** floor(2^256 / (target + 1)), although 2^256 itself does not fit. */
  method GetBlockProof(c: u32) returns (proof: array<u32>)
    ensures fresh(proof) && proof.Length == WIDTH
    ensures Value(proof[..]) == if Valid(c as nat) then Modulus(WIDTH) / (Decode(c as nat) + 1) else 0
  {
    hide At, Value, Wrap, Modulus, Decode;
    proof := new u32[WIDTH];
    var target := new u32[WIDTH];
    var negative, overflow := SetCompact(target, c);
    Zero(proof);
    ValueZero(proof[..]);
    ghost var t := Decode(c as nat);
    if !overflow { Stored(t); }
    var zero := CompareTo(target, proof);
    if negative || overflow || zero == 0 {
      return;
    }
    ValueBound(target[..]);
    NotAllOnes(c as nat);
    var one := new u32[WIDTH];
    SetValue(one, 1);
    proof := Complement(target);
    var divisor := Copy(target);
    AddAssign(divisor, one);
    Stored(t + 1);
    var thrown := DivAssign(proof, divisor);
    ProofIs(t);
    AddAssign(proof, one);
  }

  lemma Stored(v: nat)
    requires v < Modulus(WIDTH)
    ensures Wrap(v, WIDTH) == v
  {
    AtZero(WIDTH);
    WrapIs(v, 0, v, WIDTH);
  }

  /** The target plus one fits as well. */
  lemma NotAllOnes(c: nat)
    requires Decode(c) < Modulus(WIDTH)
    ensures Decode(c) + 1 < Modulus(WIDTH)
  {
    hide Modulus, Pow;
    ModulusPow(WIDTH);
    BytePow(32);
    if Size(c) <= 3 {
      PowPositive(256, 3 - Size(c));
      Shrinks(Word(c), Pow(256, 3 - Size(c)));
      SmallFits(Word(c));
      SmallPows();
      PowGrows(256, 3, 32);
    } else {
      var e := Size(c) - 3;
      Even(Word(c), e);
      PowAdd(256, 1, 31);
      SmallPows();
    }
  }

  lemma Even(word: nat, e: nat)
    requires e > 0
    ensures word * Pow(256, e) == 256 * (word * Pow(256, e - 1))
  {}

  lemma ProofIs(t: nat)
    requires t + 1 < Modulus(WIDTH)
    ensures (Modulus(WIDTH) - 1 - t) / (t + 1) + 1 == Modulus(WIDTH) / (t + 1)
    ensures t > 0 ==> 0 <= (Modulus(WIDTH) - 1 - t) / (t + 1) + 1 < Modulus(WIDTH) && Wrap((Modulus(WIDTH) - 1 - t) / (t + 1) + 1, WIDTH) == (Modulus(WIDTH) - 1 - t) / (t + 1) + 1
  {
    hide Modulus, Wrap;
    var m, d := Modulus(WIDTH), t + 1;
    var q, r := (m - d) / d, (m - d) % d;
    assert m - d == q * d + r;
    Distribute(q, 1, d);
    DivModUnique(m, q + 1, r, d);
    if t > 0 {
      Distribute(q, 1, 2);
      MulMono(2, d, q + 1);
      assert (q + 1) * d == d * (q + 1);
      Stored(q + 1);
    }
  }
}
