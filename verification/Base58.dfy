// Base58 encoding and decoding (src/base58.cpp): digit buffers that are multiplied and carried in place.
module Base58 {
  import opened Powers

  newtype u8 = x: int | 0 <= x < 256

  datatype Option<T> = None | Some(value: T)

  /** Quotient and remainder by a base. */
  function Quo(n: nat, base: nat): (q: nat)
    requires base > 0
  {
    QuoNat(n, base);
    n / base
  }

  function Rem(n: nat, base: nat): (r: nat)
    requires base > 0
    ensures r < base
  {
    n % base
  }

  lemma QuoNat(n: nat, base: nat)
    requires base > 0
    ensures n / base >= 0
  {}

  lemma QuoRem(n: nat, base: nat)
    requires base > 0
    ensures n == Quo(n, base) * base + Rem(n, base)
  {}

  // ---------------------------------------------------------------- digits, most significant first

  ghost function Val(s: seq<u8>, base: nat): nat {
    if s == [] then 0 else Val(s[..|s| - 1], base) * base + s[|s| - 1] as nat
  }

  ghost predicate Below(s: seq<u8>, base: nat) {
    forall i :: 0 <= i < |s| ==> s[i] as nat < base
  }

  /** The digits of a number, without leading zeros. */
  ghost function Digits(x: nat, base: nat): seq<u8>
    requires 1 < base <= 256
  {
    if x == 0 then [] else
      Shorter(x, base);
      Digits(Quo(x, base), base) + [Rem(x, base) as u8]
  }

  lemma Shorter(x: nat, base: nat)
    requires 1 < base && x > 0
    ensures Quo(x, base) < x
  {
    var q := Quo(x, base);
    QuoRem(x, base);
    MulMono(2, base, q);
    assert q * base == base * q;
  }

  /** No leading zero. */
  predicate Tight(s: seq<u8>) { s != [] ==> s[0] != 0 }

  /** Digits are unique. */
  lemma {:induction false} DigitsOf(s: seq<u8>, base: nat)
    requires 1 < base <= 256 && Below(s, base) && Tight(s)
    ensures Digits(Val(s, base), base) == s && (s != [] ==> Val(s, base) > 0)
  {
    if s != [] {
      var n := |s| - 1;
      var x, d := Val(s[..n], base), s[n] as nat;
      DigitsOf(s[..n], base);
      DivModUnique(x * base + d, x, d, base);
      if n > 0 { MulPositive(x, base); }
      assert s == s[..n] + [s[n]];
      assert n == 0 ==> d > 0;
    }
  }

  lemma {:induction false} DigitsAre(x: nat, base: nat)
    requires 1 < base <= 256
    ensures Val(Digits(x, base), base) == x && Below(Digits(x, base), base) && Tight(Digits(x, base))
  {
    hide Quo, Rem;
    if x > 0 {
      Shorter(x, base);
      DigitsAre(Quo(x, base), base);
      QuoRem(x, base);
      var s := Digits(Quo(x, base), base);
      assert Digits(x, base) == s + [Rem(x, base) as u8];
      assert (s + [Rem(x, base) as u8])[..|s|] == s;
      if s == [] { assert Quo(x, base) == 0; }
    }
  }

  /** Putting a digit in front. */
  lemma {:induction false} ValFront(d: u8, s: seq<u8>, base: nat)
    ensures Val([d] + s, base) == d as nat * Pow(base, |s|) + Val(s, base)
  {
    if s == [] {
      assert [d] + s == [d];
      assert [d][..0] == [];
    } else {
      var n := |s| - 1;
      ValFront(d, s[..n], base);
      assert ([d] + s)[..n + 1] == [d] + s[..n];
      FrontStep(d as nat, Pow(base, n), Val(s[..n], base), base);
    }
  }

  lemma FrontStep(d: int, p: int, v: int, base: int)
    ensures (d * p + v) * base == d * (base * p) + v * base
  {
    Distribute(d * p, v, base);
    Assoc(d, p, base);
  }

  lemma {:induction false} ValZero(s: seq<u8>, base: nat)
    requires forall i :: 0 <= i < |s| ==> s[i] == 0
    ensures Val(s, base) == 0
  {
    if s != [] { ValZero(s[..|s| - 1], base); }
  }

  /** Leading zeros do not count. */
  lemma {:induction false} ValSkip(s: seq<u8>, k: nat, base: nat)
    requires k <= |s| && forall i :: 0 <= i < k ==> s[i] == 0
    ensures Val(s, base) == Val(s[k..], base)
  {
    if k == |s| {
      ValZero(s, base);
      assert s[k..] == [];
    } else {
      var n := |s| - 1;
      ValSkip(s[..n], k, base);
      assert s[k..][..n - k] == s[..n][k..];
    }
  }

  lemma {:induction false} ValBound(s: seq<u8>, base: nat)
    requires Below(s, base)
    ensures Val(s, base) < Pow(base, |s|)
  {
    if s != [] {
      var n := |s| - 1;
      ValBound(s[..n], base);
      MulMono(Val(s[..n], base) + 1, Pow(base, n), base);
      Distribute(Val(s[..n], base), 1, base);
    }
  }

  // ---------------------------------------------------------------- one step on the buffer

  /** The digits before the last length ones are zero, and the first of those is not. */
  ghost predicate Uses(s: seq<u8>, length: nat) {
    length <= |s| && (forall k :: 0 <= k < |s| - length ==> s[k] == 0) && (length > 0 ==> s[|s| - length] != 0)
  }

  /** After i digits, counted from the end: what is still to be multiplied, and what has been written. */
  ghost predicate Halfway(x: seq<u8>, s: seq<u8>, mul: nat, base: nat, ch: nat, i: nat, carry: nat) {
    && |s| == |x| && i <= |x| && s[..|x| - i] == x[..|x| - i] && Below(x, base) && Below(s, base) && carry < mul
    && Val(x, base) * mul + ch == Rest(Val(x[..|x| - i], base), mul, carry, Pow(base, i)) + Val(s[|x| - i..], base)
  }

  /** What is left of a product when v times mul plus carry still has to be written before p. */
  ghost function Rest(v: nat, mul: nat, carry: nat, p: nat): int { (v * mul + carry) * p }

  lemma HalfwayStart(x: seq<u8>, mul: nat, base: nat, ch: nat)
    requires Below(x, base) && ch < mul
    ensures Halfway(x, x, mul, base, ch, 0, ch)
  {
    assert x[..|x| - 0] == x && x[|x| - 0..] == [];
  }

  lemma HalfwayStep(x: seq<u8>, s: seq<u8>, mul: nat, base: nat, ch: nat, i: nat, carry: nat, n: nat)
    requires Halfway(x, s, mul, base, ch, i, carry) && i < |x| && 1 < base <= 256 && n == carry + mul * s[|x| - i - 1] as nat
    ensures s[|x| - i - 1] == x[|x| - i - 1]
    ensures Halfway(x, s[|x| - i - 1 := Rem(n, base) as u8], mul, base, ch, i + 1, Quo(n, base))
  {
    hide Quo, Rem, Rest, Val, Pow;
    var k := |x| - i - 1;
    assert s[k] == s[..|x| - i][k] && x[k] == x[..|x| - i][k];
    var s' := s[k := Rem(n, base) as u8];
    ValNext(x, k, base);
    assert s'[k..] == [s'[k]] + s[k + 1..] && s'[..k] == x[..k];
    ValFront(s'[k], s[k + 1..], base);
    PowNext(base, i);
    ColumnStep(Val(x[..k], base), base, x[k] as nat, mul, carry, Pow(base, i), n);
    CarryBound(x[k] as nat, mul, base, carry, n);
  }

  lemma ValNext(x: seq<u8>, k: nat, base: nat)
    requires k < |x|
    ensures Val(x[..k + 1], base) == Val(x[..k], base) * base + x[k] as nat
  {
    assert x[..k + 1][..k] == x[..k];
  }

  lemma PowNext(base: nat, i: nat)
    ensures Pow(base, i + 1) == base * Pow(base, i)
  {}

  lemma ColumnStep(v: nat, base: nat, d: nat, mul: nat, carry: nat, p: nat, n: nat)
    requires base > 0 && n == carry + mul * d
    ensures Rest(v * base + d, mul, carry, p) == Rest(v, mul, Quo(n, base), base * p) + Rem(n, base) * p
  {
    hide Quo, Rem;
    var q, r := Quo(n, base), Rem(n, base);
    QuoRem(n, base);
    assert (v * base + d) * mul + carry == (v * mul + q) * base + r by {
      Distribute(v * base, d, mul);
      Distribute(v * mul, q, base);
      Assoc(v, base, mul);
      Assoc(v, mul, base);
    }
    Distribute((v * mul + q) * base, r, p);
    Assoc(v * mul + q, base, p);
  }

  lemma CarryBound(d: nat, mul: nat, base: nat, carry: nat, n: nat)
    requires d < base && carry < mul && n == carry + mul * d
    ensures Quo(n, base) < mul
  {
    hide Quo, Rem;
    var q := Quo(n, base);
    QuoRem(n, base);
    MulMono(d + 1, base, mul);
    Distribute(d, 1, mul);
    if q >= mul { MulMono(mul, q, base); }
  }

  lemma HalfwayEnd(x: seq<u8>, s: seq<u8>, mul: nat, base: nat, ch: nat, i: nat, carry: nat, length: nat)
    requires Halfway(x, s, mul, base, ch, i, carry) && Uses(x, length) && i >= length && base > 1
    requires carry == 0 || i == |x|
    requires Val(x, base) * mul + ch < Pow(base, |x|)
    ensures carry == 0 && Below(s, base) && Val(s, base) == Val(x, base) * mul + ch && forall k :: 0 <= k < |s| - i ==> s[k] == 0
  {
    hide Val, Pow, Rest;
    var n := |x| - i;
    ValZero(x[..n], base);
    forall k | 0 <= k < n ensures s[k] == 0 { assert s[k] == s[..n][k] && x[k] == x[..n][k]; }
    ValSkip(s, n, base);
    RestIs(carry, mul, Pow(base, i));
  }

  lemma RestIs(carry: nat, mul: nat, p: nat)
    ensures Rest(0, mul, 0, p) == 0 && (carry > 0 ==> Rest(0, mul, carry, p) >= p)
  {
    if carry > 0 { MulAtLeast(p, carry); }
  }

  /** "buf = buf * mul + ch", from the last digit on, as far as needed. */
  method Accumulate(buf: array<u8>, mul: nat, base: nat, ch: nat, length: nat) returns (length': nat)
    requires 1 < base <= 256 && ch < mul && Below(buf[..], base) && Uses(buf[..], length)
    requires Val(buf[..], base) * mul + ch < Pow(base, buf.Length)
    modifies buf
    ensures Below(buf[..], base) && Uses(buf[..], length') && length' >= length
    ensures Val(buf[..], base) == old(Val(buf[..], base)) * mul + ch
  {
    hide Val, Pow, Halfway, Below, Quo, Rem;
    ghost var x := buf[..];
    HalfwayStart(x, mul, base, ch);
    var carry: nat, i: nat := ch, 0;
    while (carry != 0 || i < length) && i < buf.Length
      invariant i <= buf.Length && Halfway(x, buf[..], mul, base, ch, i, carry)
      invariant i > 0 && i >= length ==> buf[buf.Length - i] as nat + carry > 0
    {
      var k := buf.Length - 1 - i;
      var n := Sum(carry, mul, buf[k] as nat);
      HalfwayStep(x, buf[..], mul, base, ch, i, carry, n);
      ghost var s := buf[..];
      NotLost(n, base);
      buf[k] := Rem(n, base) as u8;
      assert buf[..] == s[k := buf[k]];
      carry := Quo(n, base);
      i := i + 1;
    }
    HalfwayEnd(x, buf[..], mul, base, ch, i, carry, length);
    length' := i;
  }

  function Sum(carry: nat, mul: nat, d: nat): (n: nat)
    ensures n == carry + mul * d && (carry > 0 || (mul > 0 && d > 0) ==> n > 0)
  {
    if mul > 0 && d > 0 then
      MulPositive(mul, d);
      carry + mul * d
    else carry + mul * d
  }

  /** A number that is not zero leaves a digit or a carry. */
  lemma NotLost(n: nat, base: nat)
    requires base > 0
    ensures n > 0 ==> Rem(n, base) + Quo(n, base) > 0
  {
    QuoRem(n, base);
  }

  // ---------------------------------------------------------------- the buffers are large enough

  lemma {:induction false} PowMono(a: nat, b: nat, n: nat)
    requires a <= b
    ensures Pow(a, n) <= Pow(b, n)
  {
    if n > 0 {
      PowMono(a, b, n - 1);
      MulMono(a, b, Pow(a, n - 1));
      MulMono(Pow(a, n - 1), Pow(b, n - 1), b);
    }
  }

  lemma {:induction false} PowStrict(a: nat, b: nat, n: nat)
    requires a < b && n > 0
    ensures Pow(a, n) < Pow(b, n)
  {
    if n == 1 {
      assert Pow(a, 1) == a && Pow(b, 1) == b;
    } else {
      PowStrict(a, b, n - 1);
      MulMono(a, b, Pow(a, n - 1));
      MulMono(Pow(a, n - 1) + 1, Pow(b, n - 1), b);
      Distribute(Pow(a, n - 1), 1, b);
    }
  }

  lemma Root(a: nat, b: nat, n: nat)
    requires n > 0 && Pow(b, n) <= Pow(a, n)
    ensures b <= a
  {
    hide Pow;
    if a < b { PowStrict(a, b, n); }
  }

  lemma Powers2(b: nat, m: nat, n: nat, mn: nat)
    requires mn == m * n
    ensures Pow(Pow(b, m), n) == Pow(b, mn) == Pow(Pow(b, n), m)
  {
    PowPow(b, m, n);
    PowPow(b, n, m);
    assert m * n == n * m;
  }

  /** If a^p >= b^q, then k digits to base a hold n digits to base b when p n <= q k. */
  lemma Room(a: nat, b: nat, p: nat, q: nat, n: nat, k: nat)
    requires a > 0 && q > 0 && Pow(a, p) >= Pow(b, q) && p * n <= q * k
    ensures Pow(b, n) <= Pow(a, k)
  {
    hide Pow;
    RoomRaised(a, b, p, q, n, k, p * n, q * n, q * k);
    Root(Pow(a, k), Pow(b, n), q);
  }

  lemma RoomRaised(a: nat, b: nat, p: nat, q: nat, n: nat, k: nat, pn: nat, qn: nat, qk: nat)
    requires a > 0 && Pow(a, p) >= Pow(b, q) && pn == p * n && qn == q * n && qk == q * k && pn <= qk
    ensures Pow(Pow(b, n), q) <= Pow(Pow(a, k), q)
  {
    hide Pow;
    Powers2(a, p, n, pn);
    Powers2(b, q, n, qn);
    Powers2(a, q, k, qk);
    PowMono(Pow(b, q), Pow(a, p), n);
    PowGrows(a, pn, qk);
  }

  lemma Eleven()
    ensures Pow(58, 11) >= Pow(256, 8)
  {
    assert Pow(58, 2) == 3364;
    PowAdd(58, 2, 2);
    assert Pow(58, 4) == 11316496;
    PowAdd(58, 4, 4);
    assert Pow(58, 8) == 128063081718016;
    PowAdd(58, 8, 2);
    assert Pow(58, 10) == 430804206899405824;
    PowAdd(58, 10, 1);
    assert Pow(58, 11) == 24986644000165537792;
    assert Pow(256, 2) == 65536;
    PowAdd(256, 2, 2);
    assert Pow(256, 4) == 4294967296;
    PowAdd(256, 4, 4);
    assert Pow(256, 8) == 18446744073709551616;
  }

  lemma SeventyOne()
    ensures Pow(256, 52) >= Pow(58, 71)
  {
    assert Pow(58, 2) == 3364;
    PowAdd(58, 2, 2);
    assert Pow(58, 4) == 11316496;
    PowAdd(58, 4, 4);
    assert Pow(58, 8) == 128063081718016;
    PowAdd(58, 8, 8);
    assert Pow(58, 16) == 16400152899115243850138976256;
    PowAdd(58, 16, 16);
    assert Pow(58, 32) == 268965015114358137726910587140455987105619365599731777536;
    PowAdd(58, 32, 32);
    assert Pow(58, 64) == 72342179355466901471258927612150153907721848234316445933056526044582001260898145151856420451025374266490194231296;
    PowAdd(58, 64, 4);
    assert Pow(58, 68) == 818659983307423768631895769287186768096118664656249123135650444757408038940948816018402574608346843785239217057684258816;
    PowAdd(58, 68, 2);
    assert Pow(58, 70) == 2753972183846173557677697367882096287875343187903622050228328096163920642997351817085906260982478782493544726182049846657024;
    PowAdd(58, 70, 1);
    assert Pow(58, 71) == 159730386663078066345306447337161584696769904898410078913243029577507397293846405390982563136983769384625594118558891106107392;
    assert Pow(256, 2) == 65536;
    PowAdd(256, 2, 2);
    assert Pow(256, 4) == 4294967296;
    PowAdd(256, 4, 4);
    assert Pow(256, 8) == 18446744073709551616;
    PowAdd(256, 8, 8);
    assert Pow(256, 16) == 340282366920938463463374607431768211456;
    PowAdd(256, 16, 16);
    assert Pow(256, 32) == 115792089237316195423570985008687907853269984665640564039457584007913129639936;
    PowAdd(256, 32, 16);
    assert Pow(256, 48) == 39402006196394479212279040100143613805079739270465446667948293404245721771497210611414266254884915640806627990306816;
    PowAdd(256, 48, 4);
    assert Pow(256, 52) == 169230328010303641331690318856389386196071598838855992136870091590247882556495704531248437872567112920983350278405979725889536;
  }

  function EncodedSize(n: nat): nat { n * 138 / 100 + 1 }

  function DecodedSize(n: nat): nat { n * 733 / 1000 + 1 }

  lemma EncodeRoom(n: nat)
    ensures Pow(256, n) <= Pow(58, EncodedSize(n))
  {
    hide Pow;
    Eleven();
    Room(58, 256, 11, 8, n, EncodedSize(n));
  }

  lemma DecodeRoom(n: nat)
    ensures Pow(58, n) <= Pow(256, DecodedSize(n))
  {
    hide Pow;
    SeventyOne();
    Room(256, 58, 52, 71, n, DecodedSize(n));
  }

  // ---------------------------------------------------------------- characters

  /** The characters stand for 0 to 57; "0", "I", "O" and "l" are left out. */
  function Letter(d: nat): char
    requires d < 58
  {
    (if d < 9 then '1' as int + d
     else if d < 17 then 'A' as int + (d - 9)
     else if d < 22 then 'J' as int + (d - 17)
     else if d < 33 then 'P' as int + (d - 22)
     else if d < 44 then 'a' as int + (d - 33)
     else 'm' as int + (d - 44)) as char
  }

  function DigitOf(c: char): int {
    if '1' <= c <= '9' then c as int - '1' as int
    else if 'A' <= c <= 'H' then c as int - 'A' as int + 9
    else if 'J' <= c <= 'N' then c as int - 'J' as int + 17
    else if 'P' <= c <= 'Z' then c as int - 'P' as int + 22
    else if 'a' <= c <= 'k' then c as int - 'a' as int + 33
    else if 'm' <= c <= 'z' then c as int - 'm' as int + 44
    else -1
  }

  predicate IsSpace(c: char) { c == ' ' || 9 <= c as int <= 13 }

  lemma LetterDigit(d: nat)
    requires d < 58
    ensures DigitOf(Letter(d)) == d && !IsSpace(Letter(d)) && (Letter(d) == '1' <==> d == 0) && Letter(d) != 0 as char
  {}

  ghost function Text(s: seq<u8>): string
    requires Below(s, 58)
  {
    seq(|s|, i requires 0 <= i < |s| => Letter(s[i] as nat))
  }

  ghost function Zeros(n: nat): seq<u8> { seq(n, _ => 0) }

  ghost function Ones(n: nat): string { seq(n, _ => '1') }

  /** How many of the first elements are x. */
  function Leading<T(==)>(s: seq<T>, x: T): (n: nat)
    ensures n <= |s| && (forall i :: 0 <= i < n ==> s[i] == x) && (n < |s| ==> s[n] != x)
  {
    if s == [] || s[0] != x then 0 else 1 + Leading(s[1..], x)
  }

  lemma {:induction false} LeadingIs<T>(s: seq<T>, x: T, n: nat)
    requires n <= |s| && (forall i :: 0 <= i < n ==> s[i] == x) && (n < |s| ==> s[n] != x)
    ensures Leading(s, x) == n
  {
    if n > 0 {
      assert forall i :: 0 <= i < |s| - 1 ==> s[1..][i] == s[i + 1];
      LeadingIs(s[1..], x, n - 1);
    }
  }

  // ---------------------------------------------------------------- encoding

  /** One "1" for every leading zero byte, then the rest as a number to base 58. */
  ghost function Encoded(input: seq<u8>): string {
    var z := Leading(input, 0);
    var x := Val(input[z..], 256);
    DigitsAre(x, 58);
    Ones(z) + Text(Digits(x, 58))
  }

  method EncodeBase58(input: seq<u8>) returns (str: string)
    ensures str == Encoded(input)
  {
    hide Val, Pow, Digits, Uses, Below;
    var zeroes: nat := 0;
    while zeroes < |input| && input[zeroes] == 0
      invariant zeroes <= |input| && forall i :: 0 <= i < zeroes ==> input[i] == 0
    {
      zeroes := zeroes + 1;
    }
    LeadingIs(input, 0, zeroes);
    var rest := input[zeroes..];
    var size := EncodedSize(|rest|);
    var b58 := new u8[size](_ => 0);
    var length: nat, j: nat := 0, 0;
    StartBuffer(b58[..], 58, rest[..0], 256);
    while j < |rest|
      invariant j <= |rest| && b58.Length == size && Below(b58[..], 58) && Uses(b58[..], length)
      invariant Val(b58[..], 58) == Val(rest[..j], 256)
    {
      ValNext(rest, j, 256);
      BytesFit(rest, j + 1);
      length := Accumulate(b58, 256, 58, rest[j] as nat, length);
      j := j + 1;
    }
    assert rest[..j] == rest;
    UsesLength(b58[..], length);
    var k := size - length;
    DigitsFrom(b58[..], length, 58);
    while k < size && b58[k] == 0
      invariant size - length <= k <= size && (k > size - length ==> length > 0 && b58[size - length] == 0)
    {
      k := k + 1;
    }
    UsesTight(b58[..], length);
    assert k == size - length;
    ghost var digits := b58[k..];
    assert digits == b58[..][k..];
    str := Repeat('1', zeroes);
    ghost var n := 0;
    while k < size
      invariant size - length <= k <= size && n == k - (size - length) && n <= |digits| == length
      invariant digits == b58[size - length..] && Below(digits, 58) && str == Ones(zeroes) + Text(digits)[..n]
    {
      BelowAt(digits, n, 58);
      str := str + [Letter(b58[k] as nat)];
      k := k + 1;
      n := n + 1;
    }
    assert Text(digits)[..n] == Text(digits);
  }

  method Repeat(c: char, n: nat) returns (s: string)
    ensures s == seq(n, _ => c)
  {
    s := seq(n, _ => c);
  }

  lemma BelowAt(s: seq<u8>, i: nat, base: nat)
    requires Below(s, base) && i < |s|
    ensures s[i] as nat < base
  {}

  lemma StartBuffer(s: seq<u8>, base: nat, t: seq<u8>, base': nat)
    requires (forall i :: 0 <= i < |s| ==> s[i] == 0) && t == [] && base > 0
    ensures Below(s, base) && Uses(s, 0) && Val(s, base) == 0 == Val(t, base')
  {
    ValZero(s, base);
  }

  lemma BytesFit(rest: seq<u8>, j: nat)
    requires j <= |rest|
    ensures Val(rest[..j], 256) < Pow(58, EncodedSize(|rest|))
  {
    hide Pow;
    ValBound(rest[..j], 256);
    PowGrows(256, j, |rest|);
    EncodeRoom(|rest|);
  }

  lemma UsesLength(s: seq<u8>, length: nat)
    requires Uses(s, length)
    ensures length <= |s|
  {}

  lemma UsesTight(s: seq<u8>, length: nat)
    requires Uses(s, length)
    ensures length > 0 ==> s[|s| - length] != 0
  {}

  /** The part of the buffer in use is the digits of the number. */
  lemma DigitsFrom(s: seq<u8>, length: nat, base: nat)
    requires Uses(s, length) && Below(s, base) && 1 < base <= 256
    ensures length <= |s| && s[|s| - length..] == Digits(Val(s, base), base) && Below(s[|s| - length..], base)
  {
    var t := s[|s| - length..];
    ValSkip(s, |s| - length, base);
    DigitsOf(t, base);
  }

  // ---------------------------------------------------------------- decoding

  function SkipSpaces(s: string): (t: string)
    ensures |t| <= |s| && s[|s| - |t|..] == t && (t != [] ==> !IsSpace(t[0])) && forall i :: 0 <= i < |s| - |t| ==> IsSpace(s[i])
  {
    if s != [] && IsSpace(s[0]) then SkipSpaces(s[1..]) else s
  }

  /** The characters up to the first space. */
  function Word(s: string): (t: string)
    ensures t <= s && (forall i :: 0 <= i < |t| ==> !IsSpace(t[i])) && (|t| < |s| ==> IsSpace(s[|t|]))
  {
    if s == [] || IsSpace(s[0]) then [] else [s[0]] + Word(s[1..])
  }

  predicate AllDigits(s: string) { forall i :: 0 <= i < |s| ==> DigitOf(s[i]) >= 0 }

  lemma DigitBelow(c: char)
    ensures -1 <= DigitOf(c) < 58
  {}

  ghost function DigitsIn(s: string): (t: seq<u8>)
    requires AllDigits(s)
    ensures |t| == |s| && Below(t, 58)
  {
    if s == [] then [] else
      DigitBelow(s[|s| - 1]);
      DigitsIn(s[..|s| - 1]) + [DigitOf(s[|s| - 1]) as u8]
  }

  /**
   * Spaces around, one zero byte for every leading "1", then a number to base 58 as bytes; nothing if a character
   * is not allowed or the result is longer than allowed.
   */
  ghost function Decoded(str: string, maxLen: nat): Option<seq<u8>> {
    if 0 as char in str then None
    else
      var s := SkipSpaces(str);
      var z := Leading(s, '1');
      RestDecoded(s[z..], z, maxLen)
  }

  /** What is left after the leading ones. */
  ghost function RestDecoded(rest: string, zeroes: nat, maxLen: nat): Option<seq<u8>> {
    var word := Word(rest);
    if !AllDigits(word) || SkipSpaces(rest[|word|..]) != [] then None
    else
      var r := Zeros(zeroes) + Digits(Val(DigitsIn(word), 58), 256);
      if |r| > maxLen then None else Some(r)
  }

  lemma DigitsInNext(s: string, j: nat)
    requires j < |s| && AllDigits(s[..j + 1])
    ensures AllDigits(s[..j]) && DigitOf(s[j]) >= 0 && Val(DigitsIn(s[..j + 1]), 58) == Val(DigitsIn(s[..j]), 58) * 58 + DigitOf(s[j])
  {
    assert s[..j + 1][..j] == s[..j] && s[..j + 1][j] == s[j];
    forall i | 0 <= i < j ensures DigitOf(s[..j][i]) >= 0 { assert s[..j][i] == s[..j + 1][i]; }
    var t := DigitsIn(s[..j + 1]);
    assert t[..j] == DigitsIn(s[..j]);
    DigitBelow(s[j]);
  }

  lemma {:induction false} WordIs(s: string, n: nat)
    requires n <= |s| && (forall i :: 0 <= i < n ==> !IsSpace(s[i])) && (n < |s| ==> IsSpace(s[n]))
    ensures Word(s) == s[..n]
  {
    if n > 0 {
      assert forall i :: 0 <= i < |s| - 1 ==> s[1..][i] == s[i + 1];
      WordIs(s[1..], n - 1);
      assert s[..n] == [s[0]] + s[1..][..n - 1];
    }
  }

  lemma {:induction false} SkipIs(s: string, n: nat)
    requires n <= |s| && (forall i :: 0 <= i < n ==> IsSpace(s[i])) && (n < |s| ==> !IsSpace(s[n]))
    ensures SkipSpaces(s) == s[n..]
  {
    if n > 0 {
      assert forall i :: 0 <= i < |s| - 1 ==> s[1..][i] == s[i + 1];
      SkipIs(s[1..], n - 1);
    }
  }

  lemma CharsFit(s: string, j: nat, n: nat)
    requires j <= |s| && j <= n && AllDigits(s[..j])
    ensures Val(DigitsIn(s[..j]), 58) < Pow(256, DecodedSize(n))
  {
    hide Pow;
    ValBound(DigitsIn(s[..j]), 58);
    PowGrows(58, j, n);
    DecodeRoom(n);
  }

  method DecodeBase58(str: string, maxLen: nat) returns (r: Option<seq<u8>>)
    ensures r == Decoded(str, maxLen)
  {
    hide RestDecoded, SkipSpaces, Leading, IsSpace;
    if 0 as char in str {
      return None;
    }
    var p: nat := 0;
    while p < |str| && IsSpace(str[p])
      invariant p <= |str| && forall i :: 0 <= i < p ==> IsSpace(str[i])
    {
      p := p + 1;
    }
    SkipIs(str, p);
    var s := str[p..];
    var zeroes: nat := 0;
    while zeroes < |s| && s[zeroes] == '1'
      invariant zeroes <= |s| && forall i :: 0 <= i < zeroes ==> s[i] == '1'
      invariant zeroes <= maxLen
    {
      zeroes := zeroes + 1;
      if zeroes > maxLen {
        TooManyOnes(s, zeroes, maxLen);
        return None;
      }
    }
    LeadingIs(s, '1', zeroes);
    var rest := s[zeroes..];
    r := DecodeRest(rest, zeroes, maxLen);
  }

  lemma TooManyOnes(s: string, n: nat, maxLen: nat)
    requires n <= |s| && (forall i :: 0 <= i < n ==> s[i] == '1') && n > maxLen
    ensures RestDecoded(s[Leading(s, '1')..], Leading(s, '1'), maxLen) == None
  {
    hide Val, Digits, DigitsIn, AllDigits, Word, SkipSpaces;
    LeadingCovers(s, n);
  }

  lemma {:induction false} LeadingCovers(s: string, n: nat)
    requires n <= |s| && forall i :: 0 <= i < n ==> s[i] == '1'
    ensures Leading(s, '1') >= n
  {
    if n > 0 {
      assert forall i :: 0 <= i < |s| - 1 ==> s[1..][i] == s[i + 1];
      LeadingCovers(s[1..], n - 1);
    }
  }

  method DecodeRest(rest: string, zeroes: nat, maxLen: nat) returns (r: Option<seq<u8>>)
    requires zeroes <= maxLen
    ensures r == RestDecoded(rest, zeroes, maxLen)
  {
    hide Val, Pow, Digits, Uses, Below, DigitsIn, SkipSpaces, Word, AllDigits, DigitOf, IsSpace;
    var size := DecodedSize(|rest|);
    var b256 := new u8[size](_ => 0);
    var length: nat, j: nat := 0, 0;
    StartDigits(rest[..0]);
    StartBuffer(b256[..], 256, DigitsIn(rest[..0]), 58);
    while j < |rest| && !IsSpace(rest[j])
      invariant j <= |rest| && b256.Length == size && Below(b256[..], 256) && Uses(b256[..], length)
      invariant (forall i :: 0 <= i < j ==> !IsSpace(rest[i])) && AllDigits(rest[..j]) && Val(b256[..], 256) == Val(DigitsIn(rest[..j]), 58)
      invariant length + zeroes <= maxLen
    {
      var digit := DigitOf(rest[j]);
      DigitBelow(rest[j]);
      if digit == -1 {
        NotAllDigits(rest, j);
        return None;
      }
      AddDigit(rest, j);
      DigitsInNext(rest, j);
      CharsFit(rest, j + 1, |rest|);
      length := Accumulate(b256, 58, 256, digit, length);
      j := j + 1;
      if length + zeroes > maxLen {
        TooLong(rest, j, b256[..], length, zeroes, maxLen);
        return None;
      }
    }
    WordIs(rest, j);
    DigitsFrom(b256[..], length, 256);
    var k := j;
    while k < |rest| && IsSpace(rest[k])
      invariant j <= k <= |rest| && forall i :: j <= i < k ==> IsSpace(rest[i])
    {
      k := k + 1;
    }
    assert forall i :: 0 <= i < k - j ==> rest[j..][i] == rest[j + i];
    SkipIs(rest[j..], k - j);
    if k < |rest| {
      return None;
    }
    var bytes := b256[size - length..];
    assert bytes == b256[..][size - length..];
    var zeros := seq(zeroes, _ => 0 as u8);
    r := Some(zeros + bytes);
  }

  lemma StartDigits(s: string)
    requires s == []
    ensures AllDigits(s) && DigitsIn(s) == []
  {}

  lemma NotAllDigits(rest: string, j: nat)
    requires j < |rest| && (forall i :: 0 <= i <= j ==> !IsSpace(rest[i])) && DigitOf(rest[j]) < 0
    ensures !AllDigits(Word(rest))
  {
    hide DigitOf, IsSpace, Word;
    WordCovers(rest, j + 1);
    assert Word(rest)[j] == rest[j];
  }

  lemma {:induction false} WordCovers(rest: string, n: nat)
    requires n <= |rest| && forall i :: 0 <= i < n ==> !IsSpace(rest[i])
    ensures |Word(rest)| >= n
  {
    hide IsSpace;
    if n > 0 {
      assert forall i :: 0 <= i < |rest| - 1 ==> rest[1..][i] == rest[i + 1];
      WordCovers(rest[1..], n - 1);
    }
  }

  lemma AddDigit(rest: string, j: nat)
    requires j < |rest| && AllDigits(rest[..j]) && DigitOf(rest[j]) >= 0
    ensures AllDigits(rest[..j + 1])
  {
    hide DigitOf;
    assert rest[..j + 1] == rest[..j] + [rest[j]];
  }

  /** More characters do not make the result shorter. */
  lemma TooLong(rest: string, j: nat, buf: seq<u8>, length: nat, zeroes: nat, maxLen: nat)
    requires j <= |rest| && (forall i :: 0 <= i < j ==> !IsSpace(rest[i])) && AllDigits(rest[..j])
    requires Uses(buf, length) && Below(buf, 256) && Val(buf, 256) == Val(DigitsIn(rest[..j]), 58) && length + zeroes > maxLen
    ensures RestDecoded(rest, zeroes, maxLen) == None
  {
    hide Val, Uses, Below, DigitsIn, AllDigits, IsSpace, DigitOf, Digits, SkipSpaces, Word;
    var word := Word(rest);
    WordCovers(rest, j);
    if AllDigits(word) {
      assert word[..j] == rest[..j];
      PrefixLess(word, j);
      DigitsFrom(buf, length, 256);
      DigitsGrow(Val(buf, 256), Val(DigitsIn(word), 58), 256);
    }
  }

  lemma {:induction false} PrefixLess(s: string, j: nat)
    requires j <= |s| && AllDigits(s)
    ensures AllDigits(s[..j]) && Val(DigitsIn(s[..j]), 58) <= Val(DigitsIn(s), 58)
  {
    hide Val, DigitsIn, DigitOf;
    if j == |s| {
      assert s[..j] == s;
    } else {
      var n := |s| - 1;
      assert s[..n + 1] == s;
      DigitsInNext(s, n);
      PrefixLess(s[..n], j);
      assert s[..n][..j] == s[..j];
    }
  }

  lemma {:induction false} DigitsGrow(x: nat, y: nat, base: nat)
    requires 1 < base <= 256 && x <= y
    ensures |Digits(x, base)| <= |Digits(y, base)|
  {
    hide Quo, Rem;
    if x > 0 {
      Shorter(x, base);
      Shorter(y, base);
      QuoMono(x, y, base);
      DigitsGrow(Quo(x, base), Quo(y, base), base);
    }
  }

  lemma QuoMono(x: nat, y: nat, base: nat)
    requires base > 0 && x <= y
    ensures Quo(x, base) <= Quo(y, base)
  {
    hide Quo, Rem;
    QuoRem(x, base);
    QuoRem(y, base);
    var p, q := Quo(x, base), Quo(y, base);
    Distribute(q, 1, base);
    if p > q { MulMono(q + 1, p, base); }
  }

  // ---------------------------------------------------------------- the round trip

  /** Decoding an encoding gives back the bytes, if as many are allowed. */
  lemma RoundTrip(b: seq<u8>, maxLen: nat)
    requires |b| <= maxLen
    ensures Decoded(Encoded(b), maxLen) == Some(b)
  {
    hide Val, Digits, DigitsIn, AllDigits, Below, Word, SkipSpaces, RestDecoded, Leading, Tight;
    var z := Leading(b, 0);
    BytesTight(b, z);
    var x := Val(b[z..], 256);
    DigitsAre(x, 58);
    var ds := Digits(x, 58);
    EncodedShape(ds, z);
    DigitsOf(b[z..], 256);
    assert Zeros(z) + b[z..] == b;
    RestTrip(ds, z, maxLen);
  }

  lemma EncodedShape(ds: seq<u8>, z: nat)
    requires Below(ds, 58) && Tight(ds)
    ensures var str := Ones(z) + Text(ds);
      0 as char !in str && SkipSpaces(str) == str && Leading(str, '1') == z && str[z..] == Text(ds)
  {
    hide Below, SkipSpaces, Leading, IsSpace;
    var str := Ones(z) + Text(ds);
    TextPlain(ds);
    OneIsNoSpace();
    assert str[0..] == str;
    SkipIs(str, 0);
    LeadingIs(str, '1', z);
    assert str[z..] == Text(ds);
  }

  lemma OneIsNoSpace()
    ensures !IsSpace('1')
  {}

  lemma RestTrip(ds: seq<u8>, z: nat, maxLen: nat)
    requires Below(ds, 58) && Tight(ds) && z + |Digits(Val(ds, 58), 256)| <= maxLen
    ensures RestDecoded(Text(ds), z, maxLen) == Some(Zeros(z) + Digits(Val(ds, 58), 256))
  {
    hide Val, Digits, DigitsIn, AllDigits, Below, Word, SkipSpaces, IsSpace;
    var text := Text(ds);
    TextPlain(ds);
    TextDigits(ds);
    WordIs(text, |text|);
    assert text[..|text|] == text;
    assert text[|text|..] == [];
    SkipIs([], 0);
  }

  lemma BytesTight(b: seq<u8>, z: nat)
    requires z == Leading(b, 0)
    ensures z <= |b| && Below(b[z..], 256) && Tight(b[z..]) && b[..z] == Zeros(z)
  {}

  lemma TextPlain(s: seq<u8>)
    requires Below(s, 58) && Tight(s)
    ensures (forall i :: 0 <= i < |s| ==> !IsSpace(Text(s)[i]) && Text(s)[i] != 0 as char) && (s != [] ==> Text(s)[0] != '1')
  {
    hide IsSpace, Letter;
    forall i | 0 <= i < |s| ensures !IsSpace(Text(s)[i]) && Text(s)[i] != 0 as char && (Text(s)[i] == '1' <==> s[i] == 0) { LetterDigit(s[i] as nat); }
  }

  lemma {:induction false} TextDigits(s: seq<u8>)
    requires Below(s, 58)
    ensures AllDigits(Text(s)) && DigitsIn(Text(s)) == s
  {
    hide Letter, DigitOf;
    forall i | 0 <= i < |s| ensures DigitOf(Text(s)[i]) == s[i] as int { LetterDigit(s[i] as nat); }
    if s != [] {
      var n := |s| - 1;
      assert Text(s)[..n] == Text(s[..n]);
      TextDigits(s[..n]);
      assert s == s[..n] + [s[n]];
    }
  }

  // ---------------------------------------------------------------- the other way round

  ghost predicate AllSpaces(s: string) { forall i :: 0 <= i < |s| ==> IsSpace(s[i]) }

  /** Whatever decodes is the encoding of the result, with nothing but spaces around it. */
  lemma OnlyEncodings(str: string, maxLen: nat, b: seq<u8>)
    requires Decoded(str, maxLen) == Some(b)
    ensures exists before, after :: str == before + Encoded(b) + after && AllSpaces(before) && AllSpaces(after)
  {
    hide Val, Digits, DigitsIn, AllDigits, Below, Word, SkipSpaces, Leading, Tight, IsSpace;
    var s := SkipSpaces(str);
    var z := Leading(s, '1');
    var rest := s[z..];
    var word := Word(rest);
    assert z < |s| ==> s[z] != '1';
    WordTight(rest);
    var x := Val(DigitsIn(word), 58);
    DigitsOf(DigitsIn(word), 58);
    DigitsAre(x, 256);
    var ds := Digits(x, 256);
    assert b == Zeros(z) + ds;
    ZerosLead(z, ds);
    assert b[z..] == ds;
    TextBack(word);
    assert Encoded(b) == Ones(z) + word;
    var before := SpacesFirst(str);
    var after := rest[|word|..];
    WordFirst(rest);
    AllSkipped(after);
    OnesFirst(s);
    Joined(str, before, s, Ones(z), rest, word, after);
    assert str == before + Encoded(b) + after;
  }

  lemma WordTight(rest: string)
    requires AllDigits(Word(rest)) && (rest != [] ==> rest[0] != '1')
    ensures Tight(DigitsIn(Word(rest)))
  {
    hide Word, DigitsIn, DigitOf, AllDigits;
    var word := Word(rest);
    if word != [] {
      DigitsAt(word, 0);
      assert word[0] == rest[0];
      OnlyOneIsZero(word[0]);
    }
  }

  lemma OnlyOneIsZero(c: char)
    ensures DigitOf(c) == 0 <==> c == '1'
  {}

  lemma {:induction false} DigitsAt(s: string, i: nat)
    requires AllDigits(s) && i < |s|
    ensures DigitsIn(s)[i] as int == DigitOf(s[i])
  {
    hide DigitOf;
    var n := |s| - 1;
    DigitBelow(s[n]);
    if i < n { DigitsAt(s[..n], i); }
  }

  lemma ZerosLead(z: nat, ds: seq<u8>)
    requires Tight(ds)
    ensures Leading(Zeros(z) + ds, 0) == z
  {
    hide Leading;
    LeadingIs(Zeros(z) + ds, 0, z);
  }

  lemma TextBack(word: string)
    requires AllDigits(word)
    ensures Text(DigitsIn(word)) == word
  {
    hide DigitsIn, Letter, DigitOf;
    forall i | 0 <= i < |word| ensures Text(DigitsIn(word))[i] == word[i] {
      DigitsAt(word, i);
      DigitLetter(word[i]);
    }
  }

  lemma DigitLetter(c: char)
    requires DigitOf(c) >= 0
    ensures DigitOf(c) < 58 && Letter(DigitOf(c)) == c
  {}

  lemma SpacesFirst(str: string) returns (before: string)
    ensures str == before + SkipSpaces(str) && AllSpaces(before)
  {
    hide SkipSpaces, IsSpace;
    before := str[..|str| - |SkipSpaces(str)|];
  }

  lemma {:induction false} AllSkipped(s: string)
    requires SkipSpaces(s) == []
    ensures AllSpaces(s)
  {
    if s != [] { AllSkipped(s[1..]); }
  }

  lemma WordFirst(rest: string)
    ensures rest == Word(rest) + rest[|Word(rest)|..]
  {
    hide Word, IsSpace;
  }

  lemma OnesFirst(s: string)
    ensures var z := Leading(s, '1'); s == Ones(z) + s[z..]
  {
    hide Leading;
  }

  lemma Joined(str: string, before: string, s: string, ones: string, rest: string, word: string, after: string)
    requires str == before + s && s == ones + rest && rest == word + after
    ensures str == before + (ones + word) + after
  {}
}
