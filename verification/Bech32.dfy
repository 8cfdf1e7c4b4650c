// Bech32 and Bech32m (src/bech32.cpp; BIP 173, section "Checksum", and BIP 350, section "Bech32m").
module Bech32 {
  import opened Gf32

  const CHECKSUM_SIZE := 6
  const SEPARATOR := '1'
  const CHAR_LIMIT := 90

  datatype Encoding = Invalid | Plain | M

  datatype DecodeResult = Failed | Decoded(encoding: Encoding, hrp: string, data: Data)

  function EncodingConstant(encoding: Encoding): bv32 {
    if encoding == Plain then 1 else 0x2bc830a3
  }

  // ---------------------------------------------------------------- the checksum polynomial

  function Xor32(a: bv32, b: bv32): bv32 { a ^ b }

  function Bit(c: bv32, b: bv32): bool { c & b != 0 }

  /** Adds a multiple of the generator if a bit is set. */
  function AddIf(d: bv32, on: bool, k: bv32): bv32 { if on then d ^ k else d }

  /** One more coefficient: c(x) * x + v modulo the generator. */
  function Step(c: bv32, v: bv8): bv32 {
    var c0 := c >> 25;
    var d := ((c & 0x1ffffff) << 5) ^ (v as bv32);
    AddIf(AddIf(AddIf(AddIf(AddIf(d, Bit(c0, 1), 0x3b6a57b2), Bit(c0, 2), 0x26508e6d), Bit(c0, 4), 0x1ea119fa), Bit(c0, 8), 0x3d4233dd), Bit(c0, 16), 0x2a1462b3)
  }

  function Residue(c: bv32, v: Data): bv32 {
    if v == [] then c else Step(Residue(c, v[..|v| - 1]), v[|v| - 1])
  }

  method PolyMod(v: Data) returns (c: bv32)
    ensures c == Residue(1, v)
    ensures Small(v) ==> HoldsRemainder(v, c)
  {
    hide Residue, AddIf, Bit, HoldsRemainder, Small;
    c := 1;
    var i := 0;
    ResidueNone(1, v[..0]);
    while i < |v|
      invariant 0 <= i <= |v| && c == Residue(1, v[..i])
    {
      ResidueNext(1, v, i);
      var c0 := c >> 25;
      c := ((c & 0x1ffffff) << 5) ^ (v[i] as bv32);
      c := AddIf(c, Bit(c0, 1), 0x3b6a57b2);
      c := AddIf(c, Bit(c0, 2), 0x26508e6d);
      c := AddIf(c, Bit(c0, 4), 0x1ea119fa);
      c := AddIf(c, Bit(c0, 8), 0x3d4233dd);
      c := AddIf(c, Bit(c0, 16), 0x2a1462b3);
      i := i + 1;
    }
    assert v[..i] == v;
    ResidueHolds(v);
  }

  lemma ResidueNone(c: bv32, v: Data)
    requires v == []
    ensures Residue(c, v) == c
  {}

  lemma ResidueNext(c: bv32, v: Data, i: nat)
    requires i < |v|
    ensures Residue(c, v[..i + 1]) == Step(Residue(c, v[..i]), v[i])
  {
    hide Step;
    assert v[..i + 1][..i] == v[..i];
  }

  lemma BitLinear(a: bv32, b: bv32)
    ensures var c, p, q := Xor32(a, b) >> 25, a >> 25, b >> 25;
      && (Bit(c, 1) <==> Bit(p, 1) != Bit(q, 1)) && (Bit(c, 2) <==> Bit(p, 2) != Bit(q, 2)) && (Bit(c, 4) <==> Bit(p, 4) != Bit(q, 4))
      && (Bit(c, 8) <==> Bit(p, 8) != Bit(q, 8)) && (Bit(c, 16) <==> Bit(p, 16) != Bit(q, 16))
  {}

  lemma AddLinear(d: bv32, e: bv32, p: bool, q: bool, k: bv32)
    ensures AddIf(Xor32(d, e), p != q, k) == Xor32(AddIf(d, p, k), AddIf(e, q, k))
  {
    hide Xor32;
    if p && q { Twice(d, e, k); } else if p { Left(d, e, k); } else if q { Right(d, e, k); }
  }

  lemma Left(d: bv32, e: bv32, k: bv32)
    ensures Xor32(d, e) ^ k == Xor32(d ^ k, e)
  {}

  lemma Right(d: bv32, e: bv32, k: bv32)
    ensures Xor32(d, e) ^ k == Xor32(d, e ^ k)
  {}

  lemma Twice(d: bv32, e: bv32, k: bv32)
    ensures Xor32(d ^ k, e ^ k) == Xor32(d, e)
  {}

  lemma ShiftLinear(a: bv32, b: bv32, x: bv8, y: bv8)
    ensures ((Xor32(a, b) & 0x1ffffff) << 5) ^ (XorByte(x, y) as bv32) == Xor32(((a & 0x1ffffff) << 5) ^ (x as bv32), ((b & 0x1ffffff) << 5) ^ (y as bv32))
  {}

  /** The step is linear over exclusive or. */
  lemma StepLinear(a: bv32, b: bv32, x: bv8, y: bv8)
    ensures Step(Xor32(a, b), XorByte(x, y)) == Xor32(Step(a, x), Step(b, y))
  {
    hide Xor32, XorByte, AddIf, Bit;
    var p, q := a >> 25, b >> 25;
    var d, e := ((a & 0x1ffffff) << 5) ^ (x as bv32), ((b & 0x1ffffff) << 5) ^ (y as bv32);
    BitLinear(a, b);
    ShiftLinear(a, b, x, y);
    AddLinear(d, e, Bit(p, 1), Bit(q, 1), 0x3b6a57b2);
    var d1, e1 := AddIf(d, Bit(p, 1), 0x3b6a57b2), AddIf(e, Bit(q, 1), 0x3b6a57b2);
    AddLinear(d1, e1, Bit(p, 2), Bit(q, 2), 0x26508e6d);
    var d2, e2 := AddIf(d1, Bit(p, 2), 0x26508e6d), AddIf(e1, Bit(q, 2), 0x26508e6d);
    AddLinear(d2, e2, Bit(p, 4), Bit(q, 4), 0x1ea119fa);
    var d3, e3 := AddIf(d2, Bit(p, 4), 0x1ea119fa), AddIf(e2, Bit(q, 4), 0x1ea119fa);
    AddLinear(d3, e3, Bit(p, 8), Bit(q, 8), 0x3d4233dd);
    var d4, e4 := AddIf(d3, Bit(p, 8), 0x3d4233dd), AddIf(e3, Bit(q, 8), 0x3d4233dd);
    AddLinear(d4, e4, Bit(p, 16), Bit(q, 16), 0x2a1462b3);
  }

  /** Thirty bits are enough. */
  lemma StepRange(c: bv32, v: bv8)
    requires v < 32
    ensures Step(c, v) < 0x40000000
  {}

  /** The generator has a constant term: nothing but zero is mapped to zero. */
  lemma StepInjective(c: bv32)
    requires c < 0x40000000
    ensures Step(c, 0) == 0 <==> c == 0
  {}

  lemma {:induction false} ResidueLinear(a: bv32, b: bv32, u: Data, w: Data)
    requires |u| == |w|
    ensures Residue(Xor32(a, b), Xor(u, w)) == Xor32(Residue(a, u), Residue(b, w))
  {
    hide Step, Xor32, XorByte;
    if u != [] {
      var n := |u| - 1;
      ResidueLinear(a, b, u[..n], w[..n]);
      assert Xor(u, w)[..n] == Xor(u[..n], w[..n]);
      StepLinear(Residue(a, u[..n]), Residue(b, w[..n]), u[n], w[n]);
    }
  }

  lemma {:induction false} ResidueRange(c: bv32, v: Data)
    requires c < 0x40000000 && Small(v)
    ensures Residue(c, v) < 0x40000000
  {
    hide Step;
    if v != [] { StepRange(Residue(c, v[..|v| - 1]), v[|v| - 1]); }
  }

  lemma {:induction false} ResidueInjective(c: bv32, n: nat)
    requires c < 0x40000000
    ensures Residue(c, Nothing(n)) == 0 <==> c == 0
  {
    hide Step;
    if n > 0 {
      ResidueInjective(c, n - 1);
      assert Nothing(n)[..n - 1] == Nothing(n - 1);
      ResidueRange(c, Nothing(n - 1));
      StepInjective(Residue(c, Nothing(n - 1)));
    }
  }

  lemma {:induction false} ResidueConcat(c: bv32, u: Data, w: Data)
    ensures Residue(c, u + w) == Residue(Residue(c, u), w)
  {
    hide Step;
    if w == [] {
      assert u + w == u;
    } else {
      var n := |w| - 1;
      ResidueConcat(c, u, w[..n]);
      assert (u + w)[..|u| + n] == u + w[..n];
    }
  }

  lemma XorZero(u: Data)
    ensures Xor(u, u) == Nothing(|u|)
  {
    forall i | 0 <= i < |u| ensures XorByte(u[i], u[i]) == 0 { SelfXor(u[i]); }
  }

  lemma Self32(x: bv32, y: bv32)
    ensures Xor32(x, x) == 0 && (Xor32(x, y) == 0 <==> x == y)
  {}

  // ---------------------------------------------------------------- the checksum

  function Expand(hrp: string): Data
    requires Bytes(hrp)
  {
    seq(|hrp|, i requires 0 <= i < |hrp| => HighPart(Byte(hrp[i]))) + [ZERO] + seq(|hrp|, i requires 0 <= i < |hrp| => LowPart(Byte(hrp[i])))
  }

  function HighPart(b: bv8): bv8 { b >> 5 }

  function LowPart(b: bv8): bv8 { b & 0x1f }

  predicate Bytes(s: string) { forall i :: 0 <= i < |s| ==> s[i] as int < 256 }

  function Byte(c: char): bv8
    requires c as int < 256
  {
    c as int as bv8
  }

  lemma ByteParts(b: bv8)
    ensures HighPart(b) < 32 && LowPart(b) < 32
  {}

  lemma ExpandSmall(hrp: string)
    requires Bytes(hrp)
    ensures Small(Expand(hrp))
  {
    hide Byte;
    var e := Expand(hrp);
    forall i | 0 <= i < |e| ensures e[i] < 32 {
      if i < |hrp| { ByteParts(Byte(hrp[i])); } else if i > |hrp| { ByteParts(Byte(hrp[i - |hrp| - 1])); }
    }
  }

  /** Six groups of five bits in one number. */
  function Pack(d0: bv8, d1: bv8, d2: bv8, d3: bv8, d4: bv8, d5: bv8): bv32 {
    Pack32(Wide(d0), Wide(d1), Wide(d2), Wide(d3), Wide(d4), Wide(d5))
  }

  function Wide(d: bv8): bv32 { d as bv32 }

  function Pack32(x0: bv32, x1: bv32, x2: bv32, x3: bv32, x4: bv32, x5: bv32): bv32 {
    (x0 << 25) ^ (x1 << 20) ^ (x2 << 15) ^ (x3 << 10) ^ (x4 << 5) ^ x5
  }

  function Group(m: bv32, i: nat): bv8
    requires i < 6
  {
    Group32(m, i) as bv8
  }

  /** The i-th group, counted from the highest: m >> 5 * (5 - i). */
  function Group32(m: bv32, i: nat): (g: bv32)
    requires i < 6
    ensures g & 31 == g && g < 256
  {
    (if i == 0 then m >> 25 else if i == 1 then m >> 20 else if i == 2 then m >> 15 else if i == 3 then m >> 10 else if i == 4 then m >> 5 else m >> 0) & 31
  }

  function Groups(m: bv32): (g: Data)
    ensures |g| == CHECKSUM_SIZE
  {
    [Group(m, 0), Group(m, 1), Group(m, 2), Group(m, 3), Group(m, 4), Group(m, 5)]
  }

  lemma PackGroups(m: bv32)
    requires m < 0x40000000
    ensures Pack(Group(m, 0), Group(m, 1), Group(m, 2), Group(m, 3), Group(m, 4), Group(m, 5)) == m
  {
    hide Group, Group32, Pack32, Wide;
    GroupIs(m, 0);
    GroupIs(m, 1);
    GroupIs(m, 2);
    GroupIs(m, 3);
    GroupIs(m, 4);
    GroupIs(m, 5);
    Reassemble(m);
  }

  lemma GroupIs(m: bv32, i: nat)
    requires i < 6
    ensures Wide(Group(m, i)) == Group32(m, i)
  {
    hide Group32;
    ThereAndBack(Group32(m, i));
  }

  lemma ThereAndBack(x: bv32)
    requires x & 31 == x && x < 256
    ensures (x as bv8) as bv32 == x
  {}

  lemma Reassemble(m: bv32)
    requires m < 0x40000000
    ensures Pack32(Group32(m, 0), Group32(m, 1), Group32(m, 2), Group32(m, 3), Group32(m, 4), Group32(m, 5)) == m
  {
    hide Pack32, Group32;
    GroupsAre(m);
    AllBits(m);
  }

  lemma GroupsAre(m: bv32)
    ensures Group32(m, 0) == (m >> 25) & 31 && Group32(m, 1) == (m >> 20) & 31 && Group32(m, 2) == (m >> 15) & 31
    ensures Group32(m, 3) == (m >> 10) & 31 && Group32(m, 4) == (m >> 5) & 31 && Group32(m, 5) == (m >> 0) & 31
  {}

  lemma AllBits(m: bv32)
    requires m < 0x40000000
    ensures Pack32((m >> 25) & 31, (m >> 20) & 31, (m >> 15) & 31, (m >> 10) & 31, (m >> 5) & 31, (m >> 0) & 31) == m
  {}

  lemma GroupsSmall(m: bv32)
    ensures Small(Groups(m))
  {
    hide Group;
    GroupSmall(m, 0);
    GroupSmall(m, 1);
    GroupSmall(m, 2);
    GroupSmall(m, 3);
    GroupSmall(m, 4);
    GroupSmall(m, 5);
  }

  lemma GroupSmall(m: bv32, i: nat)
    requires i < 6
    ensures Group(m, i) < 32
  {
    hide Group32;
    Small31(Group32(m, i));
  }

  lemma Small31(x: bv32)
    requires x & 31 == x && x < 256
    ensures x as bv8 < 32
  {}

  lemma StepSmall(c: bv32, v: bv8)
    requires c < 0x2000000
    ensures Step(c, v) == (c << 5) ^ (v as bv32)
  {}

  lemma Grow(c: bv32, v: bv8)
    requires v < 32
    ensures c < 0x20 ==> (c << 5) ^ (v as bv32) < 0x400
    ensures c < 0x400 ==> (c << 5) ^ (v as bv32) < 0x8000
    ensures c < 0x8000 ==> (c << 5) ^ (v as bv32) < 0x100000
    ensures c < 0x100000 ==> (c << 5) ^ (v as bv32) < 0x2000000
  {}

  lemma PackSteps(d0: bv8, d1: bv8, d2: bv8, d3: bv8, d4: bv8, d5: bv8)
    requires d0 < 32 && d1 < 32 && d2 < 32 && d3 < 32 && d4 < 32 && d5 < 32
    ensures Step(Step(Step(Step(Step(Step(0, d0), d1), d2), d3), d4), d5) == Pack(d0, d1, d2, d3, d4, d5)
  {
    hide Step;
    StepSmall(0, d0);
    var c0 := d0 as bv32;
    FirstStep(d0);
    var c1 := (c0 << 5) ^ (d1 as bv32);
    StepSmall(c0, d1);
    Grow(c0, d1);
    var c2 := (c1 << 5) ^ (d2 as bv32);
    StepSmall(c1, d2);
    Grow(c1, d2);
    var c3 := (c2 << 5) ^ (d3 as bv32);
    StepSmall(c2, d3);
    Grow(c2, d3);
    var c4 := (c3 << 5) ^ (d4 as bv32);
    StepSmall(c3, d4);
    Grow(c3, d4);
    StepSmall(c4, d5);
    PackShifts(d0, d1, d2, d3, d4, d5);
  }

  lemma FirstStep(d: bv8)
    requires d < 32
    ensures (0 as bv32 << 5) ^ (d as bv32) == d as bv32 < 0x20
  {}

  lemma PackShifts(d0: bv8, d1: bv8, d2: bv8, d3: bv8, d4: bv8, d5: bv8)
    ensures (((((((((d0 as bv32 << 5) ^ (d1 as bv32)) << 5) ^ (d2 as bv32)) << 5) ^ (d3 as bv32)) << 5) ^ (d4 as bv32)) << 5) ^ (d5 as bv32)
            == Pack(d0, d1, d2, d3, d4, d5)
  {}

  lemma ResidueSix(c: bv32, d0: bv8, d1: bv8, d2: bv8, d3: bv8, d4: bv8, d5: bv8)
    ensures Residue(c, [d0, d1, d2, d3, d4, d5]) == Step(Step(Step(Step(Step(Step(c, d0), d1), d2), d3), d4), d5)
  {
    hide Step, Residue;
    ResidueNone(c, []);
    ResidueAppend(c, [], d0);
    ResidueAppend(c, [d0], d1);
    ResidueAppend(c, [d0, d1], d2);
    ResidueAppend(c, [d0, d1, d2], d3);
    ResidueAppend(c, [d0, d1, d2, d3], d4);
    ResidueAppend(c, [d0, d1, d2, d3, d4], d5);
    assert [] + [d0] == [d0] && [d0] + [d1] == [d0, d1] && [d0, d1] + [d2] == [d0, d1, d2] && [d0, d1, d2] + [d3] == [d0, d1, d2, d3];
    assert [d0, d1, d2, d3] + [d4] == [d0, d1, d2, d3, d4] && [d0, d1, d2, d3, d4] + [d5] == [d0, d1, d2, d3, d4, d5];
  }

  lemma ResidueAppend(c: bv32, v: Data, x: bv8)
    ensures Residue(c, v + [x]) == Step(Residue(c, v), x)
  {
    hide Step;
    assert (v + [x])[..|v|] == v;
  }

  /** The six symbols whose groups make up m, after a residue of zero, give m. */
  lemma ResidueGroups(m: bv32)
    requires m < 0x40000000
    ensures Residue(0, Groups(m)) == m
  {
    hide Step, Pack, Group;
    PackGroups(m);
    GroupsSmall(m);
    var g := Groups(m);
    assert g[0] < 32 && g[1] < 32 && g[2] < 32 && g[3] < 32 && g[4] < 32 && g[5] < 32;
    ResidueSix(0, g[0], g[1], g[2], g[3], g[4], g[5]);
    assert g == [g[0], g[1], g[2], g[3], g[4], g[5]];
    PackSteps(g[0], g[1], g[2], g[3], g[4], g[5]);
  }

  // ---------------------------------------------------------------- what the residue is

  /** x^6 + {29}x^5 + {22}x^4 + {20}x^3 + {21}x^2 + {29}x + {18} */
  const GENERATOR: Data := [1, 29, 22, 20, 21, 29, 18]

  /** c0 times x^6 modulo the generator, as the code adds it up. */
  function Multiple(c0: bv32): bv32 {
    AddIf(AddIf(AddIf(AddIf(AddIf(0, Bit(c0, 1), 0x3b6a57b2), Bit(c0, 2), 0x26508e6d), Bit(c0, 4), 0x1ea119fa), Bit(c0, 8), 0x3d4233dd), Bit(c0, 16), 0x2a1462b3)
  }

  function Shifted(c: bv32, v: bv8): bv32 { ((c & 0x1ffffff) << 5) ^ (v as bv32) }

  lemma AddAside(d: bv32, e: bv32, on: bool, k: bv32)
    ensures AddIf(Xor32(d, e), on, k) == Xor32(d, AddIf(e, on, k))
  {}

  lemma StepSplit(c: bv32, v: bv8)
    ensures Step(c, v) == Xor32(Shifted(c, v), Multiple(c >> 25))
  {
    hide Xor32, AddIf, Bit;
    var d, c0 := ((c & 0x1ffffff) << 5) ^ (v as bv32), c >> 25;
    XorNone(d);
    AddAside(d, 0, Bit(c0, 1), 0x3b6a57b2);
    var e1 := AddIf(0, Bit(c0, 1), 0x3b6a57b2);
    AddAside(d, e1, Bit(c0, 2), 0x26508e6d);
    var e2 := AddIf(e1, Bit(c0, 2), 0x26508e6d);
    AddAside(d, e2, Bit(c0, 4), 0x1ea119fa);
    var e3 := AddIf(e2, Bit(c0, 4), 0x1ea119fa);
    AddAside(d, e3, Bit(c0, 8), 0x3d4233dd);
    AddAside(d, AddIf(e3, Bit(c0, 8), 0x3d4233dd), Bit(c0, 16), 0x2a1462b3);
  }

  lemma GroupLinear(a: bv32, b: bv32, i: nat)
    requires i < 6
    ensures Group(Xor32(a, b), i) == XorByte(Group(a, i), Group(b, i))
  {
    hide Group32, Xor32;
    Group32Linear(a, b, i);
    NarrowLinear(Group32(a, i), Group32(b, i));
  }

  lemma Group32Linear(a: bv32, b: bv32, i: nat)
    requires i < 6
    ensures Group32(Xor32(a, b), i) == Group32(a, i) ^ Group32(b, i)
  {
    if i == 0 {} else if i == 1 {} else if i == 2 {} else if i == 3 {} else if i == 4 {} else { assert i == 5; }
  }

  lemma NarrowLinear(a: bv32, b: bv32)
    requires a < 256 && b < 256
    ensures a ^ b < 256 && (a ^ b) as bv8 == XorByte(a as bv8, b as bv8)
  {}

  lemma ShiftedGroups(c: bv32, v: bv8)
    requires c < 0x40000000 && v < 32
    ensures Group(Shifted(c, v), 0) == Group(c, 1) && Group(Shifted(c, v), 1) == Group(c, 2) && Group(Shifted(c, v), 2) == Group(c, 3)
    ensures Group(Shifted(c, v), 3) == Group(c, 4) && Group(Shifted(c, v), 4) == Group(c, 5) && Group(Shifted(c, v), 5) == v
  {}

  lemma TopGroup(c: bv32)
    requires c < 0x40000000
    ensures c >> 25 < 32 && Group(c, 0) == (c >> 25) as bv8
  {}

  /** The constants of the code are the multiples of the generator. */
  lemma MultipleGroups(k: bv32)
    requires k < 32
    ensures Group(Multiple(k), 0) == Mul(k as bv8, 29) && Group(Multiple(k), 1) == Mul(k as bv8, 22) && Group(Multiple(k), 2) == Mul(k as bv8, 20)
    ensures Group(Multiple(k), 3) == Mul(k as bv8, 21) && Group(Multiple(k), 4) == Mul(k as bv8, 29) && Group(Multiple(k), 5) == Mul(k as bv8, 18)
  {}

  lemma StepGroup(c: bv32, v: bv8, i: nat, g: bv8, next: bv8)
    requires c < 0x40000000 && i < 6 && Group(Shifted(c, v), i) == next && Group(Multiple(c >> 25), i) == Mul(Group(c, 0), g)
    ensures Group(Step(c, v), i) == XorByte(next, Mul(Group(c, 0), g))
  {
    hide Group, Mul, XorByte, Xor32, Step, Shifted, Multiple;
    StepSplit(c, v);
    GroupLinear(Shifted(c, v), Multiple(c >> 25), i);
  }

  lemma StepGroups(c: bv32, v: bv8)
    requires c < 0x40000000 && v < 32
    ensures var k, s := Group(c, 0), Step(c, v);
      && Group(s, 0) == XorByte(Group(c, 1), Mul(k, 29)) && Group(s, 1) == XorByte(Group(c, 2), Mul(k, 22)) && Group(s, 2) == XorByte(Group(c, 3), Mul(k, 20))
      && Group(s, 3) == XorByte(Group(c, 4), Mul(k, 21)) && Group(s, 4) == XorByte(Group(c, 5), Mul(k, 29)) && Group(s, 5) == XorByte(v, Mul(k, 18))
  {
    hide Group, Mul, XorByte, Xor32, Step, Shifted, Multiple;
    TopGroup(c);
    ShiftedGroups(c, v);
    MultipleGroups(c >> 25);
    StepGroup(c, v, 0, 29, Group(c, 1));
    StepGroup(c, v, 1, 22, Group(c, 2));
    StepGroup(c, v, 2, 20, Group(c, 3));
    StepGroup(c, v, 3, 21, Group(c, 4));
    StepGroup(c, v, 4, 29, Group(c, 5));
    StepGroup(c, v, 5, 18, v);
  }

  lemma ReducedIs(r: Data, v: bv8)
    requires |r| == 6
    ensures Reduced(GENERATOR, r, v) == [XorByte(r[1], Mul(r[0], 29)), XorByte(r[2], Mul(r[0], 22)), XorByte(r[3], Mul(r[0], 20)),
                                         XorByte(r[4], Mul(r[0], 21)), XorByte(r[5], Mul(r[0], 29)), XorByte(v, Mul(r[0], 18))]
  {
    hide Mul, XorByte, Reduced;
    var p, g := r + [v], GENERATOR;
    assert p[1] == r[1] && p[2] == r[2] && p[3] == r[3] && p[4] == r[4] && p[5] == r[5] && p[6] == v;
    ReducedAt(g, r, v, 0);
    ReducedAt(g, r, v, 1);
    ReducedAt(g, r, v, 2);
    ReducedAt(g, r, v, 3);
    ReducedAt(g, r, v, 4);
    ReducedAt(g, r, v, 5);
  }

  /** A step of the code is a step of the division by the generator. */
  lemma StepReduces(c: bv32, v: bv8)
    requires c < 0x40000000 && v < 32
    ensures Groups(Step(c, v)) == Reduced(GENERATOR, Groups(c), v)
  {
    hide Group, Mul, XorByte, Step, Reduced;
    StepGroups(c, v);
    ReducedIs(Groups(c), v);
  }

  /** The list as a polynomial, with an implicit 1 in front; the zeros only make room for the remainder. */
  function ListPolynomial(v: Data): (p: Data)
    ensures |p| == |v| + 6
  {
    Nothing(5) + [1] + v
  }

  lemma EmptyList()
    ensures Divides(ListPolynomial([]), [], GENERATOR, Groups(1))
  {
    hide XorByte;
    FirstGroups();
    XorNothing(Groups(1));
    assert Nothing(0) + Groups(1) == Groups(1);
    assert ListPolynomial([]) == [ZERO, ZERO, ZERO, ZERO, ZERO, 1];
  }

  lemma FirstGroups()
    ensures Groups(1) == [ZERO, ZERO, ZERO, ZERO, ZERO, 1] && Small(Groups(1))
  {}

  /** The residue holds the coefficients of the remainder of the list modulo the generator. */
  lemma {:induction false} ResidueIsRemainder(v: Data)
    requires Small(v)
    ensures Residue(1, v) < 0x40000000 && Remainder(ListPolynomial(v), GENERATOR, Groups(Residue(1, v)))
    decreases |v|
  {
    hide Step, Divides, Groups, Reduced, ListPolynomial;
    if v == [] {
      EmptyList();
    } else {
      var n := |v| - 1;
      var c := Residue(1, v[..n]);
      ResidueIsRemainder(v[..n]);
      var q :| Divides(ListPolynomial(v[..n]), q, GENERATOR, Groups(c));
      StepReduces(c, v[n]);
      StepRange(c, v[n]);
      NextDivision(v[..n], q, c, v[n]);
      assert v == v[..n] + [v[n]];
    }
  }

  /** c holds the coefficients of the remainder of the list modulo the generator, five bits each. */
  ghost predicate HoldsRemainder(v: Data, c: bv32) {
    c < 0x40000000 && Remainder(ListPolynomial(v), GENERATOR, Groups(c))
  }

  lemma ResidueHolds(v: Data)
    ensures Small(v) ==> HoldsRemainder(v, Residue(1, v))
  {
    hide Residue, Remainder, Groups, ListPolynomial, Small;
    if Small(v) { ResidueIsRemainder(v); }
  }

  lemma NextDivision(v: Data, q: Data, c: bv32, x: bv8)
    requires Divides(ListPolynomial(v), q, GENERATOR, Groups(c)) && x < 32
    ensures exists q' :: Divides(ListPolynomial(v + [x]), q', GENERATOR, Reduced(GENERATOR, Groups(c), x))
  {
    hide Divides, Group, Reduced;
    DivideNext(ListPolynomial(v), q, GENERATOR, Groups(c), x);
    assert ListPolynomial(v) + [x] == ListPolynomial(v + [x]);
  }

  lemma GroupsInjective(a: bv32, b: bv32)
    requires a < 0x40000000 && b < 0x40000000 && Groups(a) == Groups(b)
    ensures a == b
  {
    hide Group, Pack;
    PackGroups(a);
    PackGroups(b);
    var g, h := Groups(a), Groups(b);
    assert g[0] == h[0] && g[1] == h[1] && g[2] == h[2] && g[3] == h[3] && g[4] == h[4] && g[5] == h[5];
  }

  /** A list has the residue c exactly if its polynomial leaves the remainder c. */
  lemma ResidueMeans(v: Data, c: bv32)
    requires Small(v) && c < 0x40000000
    ensures Residue(1, v) == c <==> Remainder(ListPolynomial(v), GENERATOR, Groups(c))
  {
    hide Residue, Groups, Remainder, ListPolynomial;
    ResidueIsRemainder(v);
    if Remainder(ListPolynomial(v), GENERATOR, Groups(c)) {
      RemainderUnique(ListPolynomial(v), GENERATOR, Groups(c), Groups(Residue(1, v)));
      GroupsInjective(c, Residue(1, v));
    }
  }

  /** What has to be added to the last six symbols. */
  function Checksum(encoding: Encoding, hrp: string, values: Data): (d: Data)
    requires Bytes(hrp)
    ensures |d| == CHECKSUM_SIZE
  {
    Groups(Xor32(Residue(1, Expand(hrp) + values + Nothing(CHECKSUM_SIZE)), EncodingConstant(encoding)))
  }

  lemma XorBack(a: bv32, b: bv32)
    ensures Xor32(a, Xor32(a, b)) == b
  {}

  lemma XorNone(a: bv32)
    ensures Xor32(a, 0) == a
  {}

  lemma XorRange(a: bv32, b: bv32)
    requires a < 0x40000000 && b < 0x40000000
    ensures Xor32(a, b) < 0x40000000
  {}

  lemma XorNothing(u: Data)
    ensures Xor(Nothing(|u|), u) == u
  {
    forall i | 0 <= i < |u| ensures XorByte(ZERO, u[i]) == u[i] { XorByteZero(u[i]); }
  }

  lemma ConstantSmall(encoding: Encoding)
    ensures EncodingConstant(encoding) < 0x40000000
  {}

  /** A list that ends with its checksum has the constant of its encoding as residue. */
  lemma ChecksumVerifies(encoding: Encoding, hrp: string, values: Data)
    requires Bytes(hrp) && Small(values)
    ensures Residue(1, Expand(hrp) + (values + Checksum(encoding, hrp, values))) == EncodingConstant(encoding)
    ensures Small(Checksum(encoding, hrp, values))
  {
    hide Step, Xor32, Residue, Expand, EncodingConstant;
    var v := Expand(hrp) + values;
    var k, zs := EncodingConstant(encoding), Nothing(CHECKSUM_SIZE);
    var c := Residue(1, v);
    var z := Residue(c, zs);
    ResidueConcat(1, v, zs);
    ExpandSmall(hrp);
    ResidueRange(1, v);
    ResidueRange(c, zs);
    ConstantSmall(encoding);
    XorBack(z, k);
    XorRange(z, k);
    var m := Xor32(z, k);
    var g := Groups(m);
    assert Checksum(encoding, hrp, values) == g;
    GroupsSmall(m);
    ResidueGroups(m);
    XorNothing(g);
    XorNone(c);
    ResidueLinear(c, 0, zs, g);
    ResidueConcat(1, v, g);
    assert Expand(hrp) + (values + g) == v + g;
  }

  /** Six symbols with which the polynomial of the list leaves the constant of its encoding as remainder. */
  ghost predicate Completes(encoding: Encoding, hrp: string, values: Data, checksum: Data)
    requires Bytes(hrp)
  {
    && |checksum| == CHECKSUM_SIZE && Small(checksum)
    && Remainder(ListPolynomial(Expand(hrp) + (values + checksum)), GENERATOR, Groups(EncodingConstant(encoding)))
  }

  /** The checksum completes its list, and nothing else does. */
  lemma ChecksumCompletes(encoding: Encoding, hrp: string, values: Data, checksum: Data)
    requires Bytes(hrp) && Small(values)
    ensures Completes(encoding, hrp, values, checksum) <==> checksum == Checksum(encoding, hrp, values)
  {
    hide Residue, Expand, Checksum, EncodingConstant, Groups, Remainder, ListPolynomial;
    var v, own, k := Expand(hrp) + values, Checksum(encoding, hrp, values), EncodingConstant(encoding);
    ExpandSmall(hrp);
    ConstantSmall(encoding);
    ChecksumVerifies(encoding, hrp, values);
    assert Expand(hrp) + (values + own) == v + own && Expand(hrp) + (values + checksum) == v + checksum;
    ResidueMeans(v + own, k);
    if Completes(encoding, hrp, values, checksum) {
      ResidueMeans(v + checksum, k);
      ResidueConcat(1, v, own);
      ResidueConcat(1, v, checksum);
      SixUnique(Residue(1, v), own, checksum);
    }
  }

  method CreateChecksum(encoding: Encoding, hrp: string, values: Data) returns (ret: Data)
    requires Bytes(hrp)
    ensures ret == Checksum(encoding, hrp, values)
    ensures Small(values) ==> Completes(encoding, hrp, values, ret)
  {
    hide Residue, Step, Completes, ListPolynomial, Remainder;
    if Small(values) { ChecksumCompletes(encoding, hrp, values, Checksum(encoding, hrp, values)); }
    var enc := PreparePolynomialCoefficients(hrp, values);
    var c := PolyMod(enc + Nothing(CHECKSUM_SIZE));
    var mod := Xor32(c, EncodingConstant(encoding));
    ret := [];
    var i := 0;
    while i < CHECKSUM_SIZE
      invariant 0 <= i <= CHECKSUM_SIZE && ret == Groups(mod)[..i]
    {
      GroupAt(mod, i);
      ret := ret + [Group(mod, i)];
      i := i + 1;
    }
  }

  lemma GroupAt(m: bv32, i: nat)
    requires i < CHECKSUM_SIZE
    ensures Groups(m)[i] == Group(m, i)
  {
    hide Group;
    if i == 0 {} else if i == 1 {} else if i == 2 {} else if i == 3 {} else if i == 4 {} else { assert i == 5; }
  }

  method PreparePolynomialCoefficients(hrp: string, values: Data) returns (ret: Data)
    requires Bytes(hrp)
    ensures ret == Expand(hrp) + values
  {
    hide Byte, HighPart, LowPart;
    ret := [];
    var i := 0;
    while i < |hrp|
      invariant 0 <= i <= |hrp| && ret == Expand(hrp)[..i]
    {
      ret := ret + [HighPart(Byte(hrp[i]))];
      i := i + 1;
    }
    ret := ret + [ZERO];
    i := 0;
    while i < |hrp|
      invariant 0 <= i <= |hrp| && ret == Expand(hrp)[..|hrp| + 1 + i]
    {
      ret := ret + [LowPart(Byte(hrp[i]))];
      i := i + 1;
    }
    ret := ret + values;
  }

  function Verified(hrp: string, values: Data): Encoding
    requires Bytes(hrp)
  {
    var check := Residue(1, Expand(hrp) + values);
    if check == EncodingConstant(Plain) then Plain else if check == EncodingConstant(M) then M else Invalid
  }

  /** What a list verifies as is decided by the remainder of its polynomial. */
  lemma VerifiedMeans(hrp: string, values: Data)
    requires Bytes(hrp) && Small(values)
    ensures Verified(hrp, values) == Plain <==> Remainder(ListPolynomial(Expand(hrp) + values), GENERATOR, Groups(EncodingConstant(Plain)))
    ensures Verified(hrp, values) == M <==> Remainder(ListPolynomial(Expand(hrp) + values), GENERATOR, Groups(EncodingConstant(M)))
  {
    hide Residue, Expand, Groups, Remainder, ListPolynomial;
    ExpandSmall(hrp);
    ResidueMeans(Expand(hrp) + values, EncodingConstant(Plain));
    ResidueMeans(Expand(hrp) + values, EncodingConstant(M));
  }

  method VerifyChecksum(hrp: string, values: Data) returns (encoding: Encoding)
    requires Bytes(hrp)
    ensures encoding == Verified(hrp, values)
    ensures Small(values) ==> (encoding == Plain <==> Remainder(ListPolynomial(Expand(hrp) + values), GENERATOR, Groups(EncodingConstant(Plain))))
    ensures Small(values) ==> (encoding == M <==> Remainder(ListPolynomial(Expand(hrp) + values), GENERATOR, Groups(EncodingConstant(M))))
  {
    hide Residue, Step, Expand, Remainder, Groups, ListPolynomial;
    if Small(values) { VerifiedMeans(hrp, values); }
    var enc := PreparePolynomialCoefficients(hrp, values);
    var check := PolyMod(enc);
    encoding := if check == EncodingConstant(Plain) then Plain else if check == EncodingConstant(M) then M else Invalid;
  }

  // ---------------------------------------------------------------- characters

  function CharOf(d: bv8): char {
    if d == 0 then 'q' else if d == 1 then 'p' else if d == 2 then 'z' else if d == 3 then 'r' else if d == 4 then 'y' else if d == 5 then '9' else if d == 6 then 'x' else if d == 7 then '8' else
    if d == 8 then 'g' else if d == 9 then 'f' else if d == 10 then '2' else if d == 11 then 't' else if d == 12 then 'v' else if d == 13 then 'd' else if d == 14 then 'w' else if d == 15 then '0' else
    if d == 16 then 's' else if d == 17 then '3' else if d == 18 then 'j' else if d == 19 then 'n' else if d == 20 then '5' else if d == 21 then '4' else if d == 22 then 'k' else if d == 23 then 'h' else
    if d == 24 then 'c' else if d == 25 then 'e' else if d == 26 then '6' else if d == 27 then 'm' else if d == 28 then 'u' else if d == 29 then 'a' else if d == 30 then '7' else 'l'
  }

  /** The inverse, for both cases; 0xff for any other character. */
  function RevOf(c: char): bv8 {
    if c == 'q' || c == 'Q' then 0 else if c == 'p' || c == 'P' then 1 else if c == 'z' || c == 'Z' then 2 else if c == 'r' || c == 'R' then 3 else
    if c == 'y' || c == 'Y' then 4 else if c == '9' then 5 else if c == 'x' || c == 'X' then 6 else if c == '8' then 7 else
    if c == 'g' || c == 'G' then 8 else if c == 'f' || c == 'F' then 9 else if c == '2' then 10 else if c == 't' || c == 'T' then 11 else
    if c == 'v' || c == 'V' then 12 else if c == 'd' || c == 'D' then 13 else if c == 'w' || c == 'W' then 14 else if c == '0' then 15 else
    if c == 's' || c == 'S' then 16 else if c == '3' then 17 else if c == 'j' || c == 'J' then 18 else if c == 'n' || c == 'N' then 19 else
    if c == '5' then 20 else if c == '4' then 21 else if c == 'k' || c == 'K' then 22 else if c == 'h' || c == 'H' then 23 else
    if c == 'c' || c == 'C' then 24 else if c == 'e' || c == 'E' then 25 else if c == '6' then 26 else if c == 'm' || c == 'M' then 27 else
    if c == 'u' || c == 'U' then 28 else if c == 'a' || c == 'A' then 29 else if c == '7' then 30 else if c == 'l' || c == 'L' then 31 else
    0xff
  }

  predicate IsUpper(c: char) { 'A' <= c <= 'Z' }

  predicate IsLower(c: char) { 'a' <= c <= 'z' }

  predicate Printable(c: char) { 33 <= c as int <= 126 }

  function LowerCase(c: char): char {
    if IsUpper(c) then (c as int - 'A' as int + 'a' as int) as char else c
  }

  lemma CharRev(d: bv8)
    requires d < 32
    ensures RevOf(CharOf(d)) == d && CharOf(d) != SEPARATOR && Printable(CharOf(d)) && !IsUpper(CharOf(d)) && CharOf(d) as int < 256
  {
    hide CharOf, RevOf;
    CharPlain(d);
    if d < 4 { CharRev0(d); } else if d < 8 { CharRev4(d); } else if d < 12 { CharRev8(d); } else if d < 16 { CharRev12(d); }
    else if d < 20 { CharRev16(d); } else if d < 24 { CharRev20(d); } else if d < 28 { CharRev24(d); } else { CharRev28(d); }
  }

  lemma CharPlain(d: bv8)
    ensures CharOf(d) != SEPARATOR && Printable(CharOf(d)) && !IsUpper(CharOf(d)) && CharOf(d) as int < 256
  {}

  lemma CharRev0(d: bv8)
    requires d < 4
    ensures RevOf(CharOf(d)) == d
  {
    if d == 0 {} else if d == 1 {} else if d == 2 {} else { assert d == 3; }
  }

  lemma CharRev4(d: bv8)
    requires 4 <= d < 8
    ensures RevOf(CharOf(d)) == d
  {
    if d == 4 {} else if d == 5 {} else if d == 6 {} else { assert d == 7; }
  }

  lemma CharRev8(d: bv8)
    requires 8 <= d < 12
    ensures RevOf(CharOf(d)) == d
  {
    if d == 8 {} else if d == 9 {} else if d == 10 {} else { assert d == 11; }
  }

  lemma CharRev12(d: bv8)
    requires 12 <= d < 16
    ensures RevOf(CharOf(d)) == d
  {
    if d == 12 {} else if d == 13 {} else if d == 14 {} else { assert d == 15; }
  }

  lemma CharRev16(d: bv8)
    requires 16 <= d < 20
    ensures RevOf(CharOf(d)) == d
  {
    if d == 16 {} else if d == 17 {} else if d == 18 {} else { assert d == 19; }
  }

  lemma CharRev20(d: bv8)
    requires 20 <= d < 24
    ensures RevOf(CharOf(d)) == d
  {
    if d == 20 {} else if d == 21 {} else if d == 22 {} else { assert d == 23; }
  }

  lemma CharRev24(d: bv8)
    requires 24 <= d < 28
    ensures RevOf(CharOf(d)) == d
  {
    if d == 24 {} else if d == 25 {} else if d == 26 {} else { assert d == 27; }
  }

  lemma CharRev28(d: bv8)
    requires 28 <= d < 32
    ensures RevOf(CharOf(d)) == d
  {
    if d == 28 {} else if d == 29 {} else if d == 30 {} else { assert d == 31; }
  }

  // ---------------------------------------------------------------- encoding

  function Text(values: Data): (t: string)
    ensures |t| == |values|
  {
    seq(|values|, i requires 0 <= i < |values| => CharOf(values[i]))
  }

  function Encoded(encoding: Encoding, hrp: string, values: Data): string
    requires Bytes(hrp)
  {
    hrp + [SEPARATOR] + Text(values + Checksum(encoding, hrp, values))
  }

  method Encode(encoding: Encoding, hrp: string, values: Data) returns (ret: string)
    requires encoding != Invalid && Bytes(hrp) && Small(values) && forall i :: 0 <= i < |hrp| ==> !IsUpper(hrp[i])
    ensures ret == Encoded(encoding, hrp, values)
    ensures exists checksum :: Completes(encoding, hrp, values, checksum) && ret == hrp + [SEPARATOR] + Text(values + checksum)
  {
    hide CharOf, Residue, Step, Expand, Checksum, Completes;
    ret := hrp + [SEPARATOR];
    var i := 0;
    while i < |values|
      invariant 0 <= i <= |values| && ret == hrp + [SEPARATOR] + Text(values)[..i]
    {
      ret := ret + [CharOf(values[i])];
      i := i + 1;
    }
    var checksum := CreateChecksum(encoding, hrp, values);
    i := 0;
    while i < |checksum|
      invariant 0 <= i <= |checksum| && ret == hrp + [SEPARATOR] + Text(values) + Text(checksum)[..i]
    {
      ret := ret + [CharOf(checksum[i])];
      i := i + 1;
    }
    assert Text(values) + Text(checksum) == Text(values + checksum);
  }

  // ---------------------------------------------------------------- decoding

  ghost predicate Has(s: string, upper: bool) {
    exists i :: 0 <= i < |s| && if upper then IsUpper(s[i]) else IsLower(s[i])
  }

  /** Printable characters, not of both cases. */
  ghost predicate CharactersOk(s: string) {
    (forall i :: 0 <= i < |s| ==> Printable(s[i])) && !(Has(s, true) && Has(s, false))
  }

  /** Collects the positions of characters that are wrong; the result says whether there are none. */
  method CheckCharacters(s: string) returns (ok: bool)
    ensures ok <==> CharactersOk(s)
  {
    hide Has, Printable;
    var lower, upper, errors := false, false, [];
    var i := 0;
    HasNone(s[..0]);
    while i < |s|
      invariant 0 <= i <= |s|
      invariant errors == [] ==> (lower <==> Has(s[..i], false)) && (upper <==> Has(s[..i], true)) && !(lower && upper)
      invariant errors == [] ==> forall j :: 0 <= j < i ==> Printable(s[j])
      invariant errors != [] ==> !CharactersOk(s)
    {
      var c := s[i];
      HasNext(s, i);
      HasMore(s, i + 1);
      LetterPrintable(c);
      if IsLower(c) {
        if upper {
          errors := errors + [i];
        } else {
          lower := true;
        }
      } else if IsUpper(c) {
        if lower {
          errors := errors + [i];
        } else {
          upper := true;
        }
      } else if c as int < 33 || c as int > 126 {
        errors := errors + [i];
      }
      i := i + 1;
    }
    assert s[..i] == s;
    ok := errors == [];
  }

  lemma LetterPrintable(c: char)
    ensures (IsLower(c) || IsUpper(c) ==> Printable(c)) && !(IsLower(c) && IsUpper(c)) && (Printable(c) <==> 33 <= c as int <= 126)
  {}

  lemma HasNone(s: string)
    requires s == []
    ensures !Has(s, true) && !Has(s, false)
  {}

  lemma HasNext(s: string, i: nat)
    requires i < |s|
    ensures Has(s[..i + 1], true) <==> Has(s[..i], true) || IsUpper(s[i])
    ensures Has(s[..i + 1], false) <==> Has(s[..i], false) || IsLower(s[i])
  {
    hide IsUpper, IsLower;
    var t := s[..i + 1];
    assert t[i] == s[i];
    forall up: bool | Has(s[..i], up) ensures Has(t, up) {
      var j :| 0 <= j < i && if up then IsUpper(s[..i][j]) else IsLower(s[..i][j]);
      assert t[j] == s[..i][j];
    }
    forall up: bool | Has(t, up) ensures Has(s[..i], up) || (if up then IsUpper(s[i]) else IsLower(s[i])) {
      var j :| 0 <= j < |t| && if up then IsUpper(t[j]) else IsLower(t[j]);
      if j < i { assert s[..i][j] == t[j]; }
    }
  }

  lemma HasMore(s: string, n: nat)
    requires n <= |s|
    ensures (Has(s[..n], true) ==> Has(s, true)) && (Has(s[..n], false) ==> Has(s, false))
  {
    hide IsUpper, IsLower;
    forall up: bool | Has(s[..n], up) ensures Has(s, up) {
      var j :| 0 <= j < n && if up then IsUpper(s[..n][j]) else IsLower(s[..n][j]);
      assert s[j] == s[..n][j];
    }
  }

  /** The position of the last separator, or -1. */
  function LastSeparator(s: string): (p: int)
    ensures -1 <= p < |s| && (p >= 0 ==> s[p] == SEPARATOR) && forall i :: p < i < |s| ==> s[i] != SEPARATOR
  {
    if s == [] then -1 else if s[|s| - 1] == SEPARATOR then |s| - 1 else LastSeparator(s[..|s| - 1])
  }

  predicate Symbols(s: string) { forall i :: 0 <= i < |s| ==> RevOf(s[i]) != 0xff }

  function Values(s: string): (v: Data)
    requires Symbols(s)
    ensures |v| == |s|
  {
    seq(|s|, i requires 0 <= i < |s| => RevOf(s[i]))
  }

  function Lowered(s: string): (t: string)
    ensures |t| == |s|
  {
    seq(|s|, i requires 0 <= i < |s| => LowerCase(s[i]))
  }

  lemma LoweredBytes(s: string)
    requires Bytes(s)
    ensures Bytes(Lowered(s))
  {}

  ghost function DecodedOf(str: string, limit: nat): DecodeResult
    requires Bytes(str)
  {
    var pos := LastSeparator(str);
    if !CharactersOk(str) || |str| > limit || pos < 1 || pos + CHECKSUM_SIZE >= |str| || !Symbols(str[pos + 1..]) then Failed
    else
      var hrp, values := Lowered(str[..pos]), Values(str[pos + 1..]);
      LoweredBytes(str[..pos]);
      if Verified(hrp, values) == Invalid then Failed else Decoded(Verified(hrp, values), hrp, values[..|values| - CHECKSUM_SIZE])
  }

  method Decode(str: string, limit: nat) returns (r: DecodeResult)
    requires Bytes(str)
    ensures r == DecodedOf(str, limit)
    ensures r.Decoded? ==> Bytes(r.hrp) && exists checksum :: Completes(r.encoding, r.hrp, r.data, checksum) && Lowered(str) == r.hrp + [SEPARATOR] + Text(r.data + checksum)
  {
    hide CharactersOk, Verified, RevOf, LowerCase, Completes;
    var ok := CheckCharacters(str);
    if !ok {
      return Failed;
    }
    var pos := LastSeparator(str);
    if |str| > limit {
      return Failed;
    }
    if pos == -1 || pos == 0 || pos + CHECKSUM_SIZE >= |str| {
      return Failed;
    }
    var part := str[pos + 1..];
    var values := [];
    var i := 0;
    while i < |part|
      invariant 0 <= i <= |part| && Symbols(part[..i]) && values == Values(part[..i])
    {
      var rev := RevOf(part[i]);
      if rev == 0xff {
        return Failed;
      }
      SymbolsNext(part, i);
      values := values + [rev];
      i := i + 1;
    }
    assert part[..i] == part;
    var hrp := [];
    i := 0;
    while i < pos
      invariant 0 <= i <= pos && hrp == Lowered(str[..pos])[..i]
    {
      hrp := hrp + [LowerCase(str[i])];
      i := i + 1;
    }
    assert hrp == Lowered(str[..pos]);
    LoweredBytes(str[..pos]);
    var encoding := VerifyChecksum(hrp, values);
    if encoding == Invalid {
      return Failed;
    }
    r := Decoded(encoding, hrp, values[..|values| - CHECKSUM_SIZE]);
    DecodedCompletes(str, limit, r);
  }

  lemma DecodedCompletes(str: string, limit: nat, r: DecodeResult)
    requires Bytes(str) && r == DecodedOf(str, limit) && r.Decoded?
    ensures Bytes(r.hrp) && exists checksum :: Completes(r.encoding, r.hrp, r.data, checksum) && Lowered(str) == r.hrp + [SEPARATOR] + Text(r.data + checksum)
  {
    hide DecodedOf, Completes, Checksum, Text, Lowered;
    OnlyEncodings(str, limit, r.encoding, r.hrp, r.data);
    DecodedSmall(str, limit);
    ChecksumCompletes(r.encoding, r.hrp, r.data, Checksum(r.encoding, r.hrp, r.data));
  }

  lemma DecodedSmall(str: string, limit: nat)
    requires Bytes(str) && DecodedOf(str, limit).Decoded?
    ensures Small(DecodedOf(str, limit).data)
  {
    hide CharactersOk, LastSeparator, Values, Lowered, Verified, Symbols;
    TextOfValues(str[LastSeparator(str) + 1..]);
  }

  lemma SymbolsNext(s: string, i: nat)
    requires i < |s| && Symbols(s[..i]) && RevOf(s[i]) != 0xff
    ensures Symbols(s[..i + 1]) && Values(s[..i + 1]) == Values(s[..i]) + [RevOf(s[i])]
  {
    hide RevOf;
    assert s[..i + 1] == s[..i] + [s[i]];
  }

  // ---------------------------------------------------------------- the round trip

  /** A human-readable part that an encoder accepts and a decoder returns. */
  ghost predicate Legal(hrp: string) {
    hrp != [] && forall i :: 0 <= i < |hrp| ==> Printable(hrp[i]) && !IsUpper(hrp[i])
  }

  lemma LegalBytes(hrp: string)
    requires Legal(hrp)
    ensures Bytes(hrp) && Lowered(hrp) == hrp && hrp != []
  {}

  lemma RoundTrip(encoding: Encoding, hrp: string, values: Data, limit: nat)
    requires encoding != Invalid && Legal(hrp) && Small(values) && |hrp| + 1 + |values| + CHECKSUM_SIZE <= limit
    ensures Bytes(hrp) && Bytes(Encoded(encoding, hrp, values)) && DecodedOf(Encoded(encoding, hrp, values), limit) == Decoded(encoding, hrp, values)
  {
    hide Verified, CharOf, Checksum, CharactersOk, Legal, Small, LastSeparator, Symbols, Values, Bytes;
    LegalBytes(hrp);
    ChecksumVerifies(encoding, hrp, values);
    var checksum := Checksum(encoding, hrp, values);
    var all := values + checksum;
    SmallConcat(values, checksum);
    var str := Encoded(encoding, hrp, values);
    EncodedOk(hrp, all);
    VerifiedIs(encoding, hrp, all);
    assert str[..|hrp|] == hrp && str[|hrp| + 1..] == Text(all);
    assert all[..|all| - CHECKSUM_SIZE] == values;
  }

  lemma SmallConcat(u: Data, w: Data)
    requires Small(u) && Small(w)
    ensures Small(u + w)
  {}

  lemma VerifiedIs(encoding: Encoding, hrp: string, all: Data)
    requires encoding != Invalid && Bytes(hrp) && Residue(1, Expand(hrp) + all) == EncodingConstant(encoding)
    ensures Verified(hrp, all) == encoding
  {
    hide Residue, Expand;
  }

  lemma EncodedOk(hrp: string, all: Data)
    requires Legal(hrp) && Small(all)
    ensures var str := hrp + [SEPARATOR] + Text(all);
      Bytes(str) && CharactersOk(str) && LastSeparator(str) == |hrp| && Symbols(Text(all)) && Values(Text(all)) == all
  {
    hide CharOf, RevOf, Printable, IsUpper, IsLower;
    var str := hrp + [SEPARATOR] + Text(all);
    SeparatorPlain();
    forall i | 0 <= i < |all| ensures PlainChar(Text(all)[i]) && Text(all)[i] != SEPARATOR && RevOf(Text(all)[i]) == all[i] != 0xff {
      CharRev(all[i]);
    }
    forall i | 0 <= i < |str| ensures PlainChar(str[i]) { PrintableByte(str[i]); }
    assert !Has(str, true) by { assert forall i :: 0 <= i < |str| ==> !IsUpper(str[i]); }
    assert forall i :: |hrp| < i < |str| ==> str[i] == Text(all)[i - |hrp| - 1];
    assert str[|hrp|] == SEPARATOR;
  }

  predicate PlainChar(c: char) { Printable(c) && !IsUpper(c) && c as int < 256 }

  lemma PrintableByte(c: char)
    ensures Printable(c) ==> c as int < 256
  {}

  lemma SeparatorPlain()
    ensures PlainChar(SEPARATOR)
  {}

  // ---------------------------------------------------------------- the other way round

  /** Six symbols are determined by the residue they lead to. */
  lemma SixUnique(c: bv32, u: Data, w: Data)
    requires |u| == |w| == CHECKSUM_SIZE && Small(u) && Small(w) && Residue(c, u) == Residue(c, w)
    ensures u == w
  {
    hide Step, Xor32, XorByte, Residue;
    ResidueLinear(c, c, u, w);
    Self32(c, c);
    Self32(Residue(c, u), Residue(c, w));
    var d := Xor(u, w);
    forall i | 0 <= i < |d| ensures d[i] < 32 && (d[i] == 0 ==> u[i] == w[i]) { XorSmall(u[i], w[i]); }
    assert d == [d[0], d[1], d[2], d[3], d[4], d[5]];
    ZeroSix(d[0], d[1], d[2], d[3], d[4], d[5]);
  }

  lemma ZeroSix(d0: bv8, d1: bv8, d2: bv8, d3: bv8, d4: bv8, d5: bv8)
    requires d0 < 32 && d1 < 32 && d2 < 32 && d3 < 32 && d4 < 32 && d5 < 32 && Residue(0, [d0, d1, d2, d3, d4, d5]) == 0
    ensures d0 == d1 == d2 == d3 == d4 == d5 == 0
  {
    hide Step, Residue, Pack;
    ResidueSix(0, d0, d1, d2, d3, d4, d5);
    PackSteps(d0, d1, d2, d3, d4, d5);
    PackZero(d0, d1, d2, d3, d4, d5);
  }

  lemma PackZero(d0: bv8, d1: bv8, d2: bv8, d3: bv8, d4: bv8, d5: bv8)
    requires d0 < 32 && d1 < 32 && d2 < 32 && d3 < 32 && d4 < 32 && d5 < 32 && Pack(d0, d1, d2, d3, d4, d5) == 0
    ensures d0 == d1 == d2 == d3 == d4 == d5 == 0
  {}

  lemma RevChar(c: char)
    requires RevOf(c) != 0xff
    ensures RevOf(c) < 32 && CharOf(RevOf(c)) == LowerCase(c)
  {
    hide CharOf;
    if c == 'q' || c == 'Q' || c == 'p' || c == 'P' || c == 'z' || c == 'Z' || c == 'r' || c == 'R' { RevChar0(c); }
    else if c == 'y' || c == 'Y' || c == '9' || c == 'x' || c == 'X' || c == '8' { RevChar4(c); }
    else if c == 'g' || c == 'G' || c == 'f' || c == 'F' || c == '2' || c == 't' || c == 'T' { RevChar8(c); }
    else if c == 'v' || c == 'V' || c == 'd' || c == 'D' || c == 'w' || c == 'W' || c == '0' { RevChar12(c); }
    else if c == 's' || c == 'S' || c == '3' || c == 'j' || c == 'J' || c == 'n' || c == 'N' { RevChar16(c); }
    else if c == '5' || c == '4' || c == 'k' || c == 'K' || c == 'h' || c == 'H' { RevChar20(c); }
    else if c == 'c' || c == 'C' || c == 'e' || c == 'E' || c == '6' || c == 'm' || c == 'M' { RevChar24(c); }
    else if c == 'u' || c == 'U' || c == 'a' || c == 'A' || c == '7' || c == 'l' || c == 'L' { RevChar28(c); }
  }

  lemma RevChar0(c: char)
    requires c == 'q' || c == 'Q' || c == 'p' || c == 'P' || c == 'z' || c == 'Z' || c == 'r' || c == 'R'
    ensures RevOf(c) < 32 && CharOf(RevOf(c)) == LowerCase(c)
  {
    if c == 'q' {} else if c == 'Q' {} else if c == 'p' {} else if c == 'P' {} else if c == 'z' {} else if c == 'Z' {} else if c == 'r' {} else if c == 'R' {}
  }

  lemma RevChar4(c: char)
    requires c == 'y' || c == 'Y' || c == '9' || c == 'x' || c == 'X' || c == '8'
    ensures RevOf(c) < 32 && CharOf(RevOf(c)) == LowerCase(c)
  {
    if c == 'y' {} else if c == 'Y' {} else if c == '9' {} else if c == 'x' {} else if c == 'X' {} else if c == '8' {}
  }

  lemma RevChar8(c: char)
    requires c == 'g' || c == 'G' || c == 'f' || c == 'F' || c == '2' || c == 't' || c == 'T'
    ensures RevOf(c) < 32 && CharOf(RevOf(c)) == LowerCase(c)
  {
    if c == 'g' {} else if c == 'G' {} else if c == 'f' {} else if c == 'F' {} else if c == '2' {} else if c == 't' {} else if c == 'T' {}
  }

  lemma RevChar12(c: char)
    requires c == 'v' || c == 'V' || c == 'd' || c == 'D' || c == 'w' || c == 'W' || c == '0'
    ensures RevOf(c) < 32 && CharOf(RevOf(c)) == LowerCase(c)
  {
    if c == 'v' {} else if c == 'V' {} else if c == 'd' {} else if c == 'D' {} else if c == 'w' {} else if c == 'W' {} else if c == '0' {}
  }

  lemma RevChar16(c: char)
    requires c == 's' || c == 'S' || c == '3' || c == 'j' || c == 'J' || c == 'n' || c == 'N'
    ensures RevOf(c) < 32 && CharOf(RevOf(c)) == LowerCase(c)
  {
    if c == 's' {} else if c == 'S' {} else if c == '3' {} else if c == 'j' {} else if c == 'J' {} else if c == 'n' {} else if c == 'N' {}
  }

  lemma RevChar20(c: char)
    requires c == '5' || c == '4' || c == 'k' || c == 'K' || c == 'h' || c == 'H'
    ensures RevOf(c) < 32 && CharOf(RevOf(c)) == LowerCase(c)
  {
    if c == '5' {} else if c == '4' {} else if c == 'k' {} else if c == 'K' {} else if c == 'h' {} else if c == 'H' {}
  }

  lemma RevChar24(c: char)
    requires c == 'c' || c == 'C' || c == 'e' || c == 'E' || c == '6' || c == 'm' || c == 'M'
    ensures RevOf(c) < 32 && CharOf(RevOf(c)) == LowerCase(c)
  {
    if c == 'c' {} else if c == 'C' {} else if c == 'e' {} else if c == 'E' {} else if c == '6' {} else if c == 'm' {} else if c == 'M' {}
  }

  lemma RevChar28(c: char)
    requires c == 'u' || c == 'U' || c == 'a' || c == 'A' || c == '7' || c == 'l' || c == 'L'
    ensures RevOf(c) < 32 && CharOf(RevOf(c)) == LowerCase(c)
  {
    if c == 'u' {} else if c == 'U' {} else if c == 'a' {} else if c == 'A' {} else if c == '7' {} else if c == 'l' {} else if c == 'L' {}
  }

  /** Whatever decodes is, in lower case, the encoding of the result. */
  lemma OnlyEncodings(str: string, limit: nat, encoding: Encoding, hrp: string, values: Data)
    requires Bytes(str) && DecodedOf(str, limit) == Decoded(encoding, hrp, values)
    ensures Bytes(hrp) && Lowered(str) == Encoded(encoding, hrp, values)
  {
    hide CharactersOk, LastSeparator, Symbols, Values, Checksum, Text, Lowered, Verified;
    var pos := LastSeparator(str);
    var part := str[pos + 1..];
    LoweredBytes(str[..pos]);
    TextOfValues(part);
    ChecksumUnique(hrp, Values(part));
    LoweredParts(str, pos);
  }

  lemma TextOfValues(part: string)
    requires Symbols(part)
    ensures Small(Values(part)) && Text(Values(part)) == Lowered(part)
  {
    hide RevOf, CharOf, LowerCase;
    forall i | 0 <= i < |part| ensures Values(part)[i] < 32 && CharOf(Values(part)[i]) == LowerCase(part[i]) { RevChar(part[i]); }
  }

  lemma ChecksumUnique(hrp: string, all: Data)
    requires Bytes(hrp) && Small(all) && |all| >= CHECKSUM_SIZE && Verified(hrp, all) != Invalid
    ensures var values := all[..|all| - CHECKSUM_SIZE]; all == values + Checksum(Verified(hrp, all), hrp, values)
  {
    hide Residue, Expand, Checksum, EncodingConstant;
    var values, tail := all[..|all| - CHECKSUM_SIZE], all[|all| - CHECKSUM_SIZE..];
    var encoding := Verified(hrp, all);
    var checksum := Checksum(encoding, hrp, values);
    ChecksumVerifies(encoding, hrp, values);
    var v := Expand(hrp) + values;
    assert Expand(hrp) + all == v + tail && Expand(hrp) + (values + checksum) == v + checksum;
    ResidueConcat(1, v, tail);
    ResidueConcat(1, v, checksum);
    SixUnique(Residue(1, v), tail, checksum);
  }

  lemma LoweredParts(str: string, pos: nat)
    requires pos < |str| && str[pos] == SEPARATOR
    ensures Lowered(str) == Lowered(str[..pos]) + [SEPARATOR] + Lowered(str[pos + 1..])
  {}

  // ---------------------------------------------------------------- errors are found

  lemma XorDiffers(u: Data, w: Data)
    requires |u| == |w| && Small(u) && Small(w)
    ensures Small(Xor(u, w)) && (Xor(u, w) == Nothing(|u|) ==> u == w)
  {
    hide XorByte;
    forall i | 0 <= i < |u| ensures XorByte(u[i], w[i]) < 32 && (XorByte(u[i], w[i]) == ZERO ==> u[i] == w[i]) { XorSmall(u[i], w[i]); }
    if Xor(u, w) == Nothing(|u|) {
      forall i | 0 <= i < |u| ensures u[i] == w[i] { assert Xor(u, w)[i] == ZERO; }
    }
  }

  /** Up to six symbols that are not all zero have a residue. */
  lemma ShortResidue(x: Data)
    requires Small(x) && |x| <= 6 && x != Nothing(|x|)
    ensures Residue(0, x) != 0
  {
    hide Residue;
    var k := 6 - |x|;
    var z := Nothing(k) + x;
    ResidueInjective(0, k);
    ResidueInjective(0, 6);
    ResidueConcat(0, Nothing(k), x);
    assert z[k..] == x && Nothing(6)[k..] == Nothing(|x|);
    if Residue(0, z) == 0 { SixUnique(0, z, Nothing(6)); assert false; }
  }

  /** Lists that differ within six consecutive symbols have different residues. */
  lemma BurstError(a: Data, u: Data, w: Data, b: Data)
    requires |u| == |w| <= 6 && Small(u) && Small(w) && u != w
    ensures Residue(1, a + u + b) != Residue(1, a + w + b)
  {
    hide Residue, Xor32, XorByte, Small;
    var c := Residue(1, a);
    var p, q := Residue(c, u), Residue(c, w);
    ResidueConcat(1, a, u);
    ResidueConcat(1, a, w);
    ResidueConcat(1, a + u, b);
    ResidueConcat(1, a + w, b);
    ResidueLinear(c, c, u, w);
    Self32(c, c);
    XorDiffers(u, w);
    ShortResidue(Xor(u, w));
    ResidueRange(0, Xor(u, w));
    ResidueLinear(p, q, b, b);
    XorZero(b);
    ResidueInjective(Xor32(p, q), |b|);
    Self32(Residue(p, b), Residue(q, b));
  }

  /** Two lists that differ within six consecutive symbols do not both verify. */
  lemma BurstIsFound(hrp: string, a: Data, u: Data, w: Data, b: Data)
    requires Bytes(hrp) && |u| == |w| <= 6 && Small(u) && Small(w) && u != w && Verified(hrp, a + u + b) != Invalid
    ensures Verified(hrp, a + w + b) != Verified(hrp, a + u + b)
  {
    hide Residue, Expand, Small;
    var e := Expand(hrp);
    BurstError(e + a, u, w, b);
    assert e + (a + u + b) == e + a + u + b && e + (a + w + b) == e + a + w + b;
  }
}
