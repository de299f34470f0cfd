/**
The Curve25519 scalar multiplication of `crypto_scalarmult_curve25519.c`: the limb ladder with
delayed swaps, the inversion by an addition chain and the conversion to bytes are proved to
compute the function X25519 of section 5 of RFC 7748 for every scalar and every point.
*/
module X25519 {
  import opened Bits
  import opened Bytes
  import opened Limbs
  import opened Modular
  import opened Fe25519
  import Fe

  // ----- the specification: section 5 of RFC 7748

  datatype Points = Points(x2: int, z2: int, x3: int, z3: int)

  function Swapped(s: Points): Points { Points(s.x3, s.z3, s.x2, s.z2) }

  /** A doubling of the first point and a differential addition of the two, whose difference has the coordinate `u`. */
  function Step(u: int, s: Points): Points
  {
    var A := Add(s.x2, s.z2);
    var AA := Mul(A, A);
    var B := Sub(s.x2, s.z2);
    var BB := Mul(B, B);
    var E := Sub(AA, BB);
    var C := Add(s.x3, s.z3);
    var D := Sub(s.x3, s.z3);
    var DA := Mul(D, A);
    var CB := Mul(C, B);
    Points(Mul(AA, BB), Mul(E, Add(AA, Mul(121665, E))),
           Mul(Add(DA, CB), Add(DA, CB)), Mul(u, Mul(Sub(DA, CB), Sub(DA, CB))))
  }

  function BitStep(u: int, s: Points, bit: int): Points
  {
    if bit == 1 then Swapped(Step(u, Swapped(s))) else Step(u, s)
  }

  /** The ladder over the low `n` bits of `k`, most significant bit first. */
  function Ladder(k: nat, n: nat, u: int): Points
    decreases n, k
  {
    if n == 0 then Points(1, 0, Residue(u), 1) else BitStep(Residue(u), Ladder(k / 2, n - 1, u), k % 2)
  }

  /** `z` to the power `e` in the field. */
  function Power(z: int, e: nat): int
    decreases e, z
  {
    if e == 0 then 1 else Mul(z, Power(z, e - 1))
  }

  function DecodeScalar(n: seq<byte>): seq<byte>
    requires |n| == 32
  {
    [n[0] - n[0] % 8] + n[1..31] + [n[31] % 64 + 64]
  }

  function DecodeU(p: seq<byte>): nat
    requires |p| == 32
  {
    Le(p) % 0x8000_0000_0000_0000_0000_0000_0000_0000_0000_0000_0000_0000_0000_0000_0000_0000
  }

  function ScalarMult(n: seq<byte>, p: seq<byte>): seq<byte>
    requires |n| == 32 && |p| == 32
  {
    var s := Ladder(Le(DecodeScalar(n)), 255, DecodeU(p));
    ToLe(Mul(s.x2, Power(s.z2, P - 2)), 32)
  }

  // ----- fe25519_inv: an addition chain for the exponent p - 2

  lemma MulAssoc(a: int, b: int, c: int)
    ensures Mul(Mul(a, b), c) == Mul(a, Mul(b, c))
  {
    ModIdem(a * b, P);
    ModIdem(b * c, P);
    ModMul(a * b % P, a * b, c, c, P);
    ModMul(a, a, b * c % P, b * c, P);
    assert a * b * c == a * (b * c);
  }

  lemma MulOne(a: int)
    requires 0 <= a < P
    ensures Mul(1, a) == a && Mul(a, 1) == a
  {
    ModSmall(a, P);
  }

  lemma {:induction false} PowerRange(z: int, e: nat)
    ensures 0 <= Power(z, e) < P
  {
  }

  lemma {:induction false} PowerAdd(z: int, a: nat, b: nat)
    ensures Mul(Power(z, a), Power(z, b)) == Power(z, a + b)
    decreases a
  {
    hide Mul;
    if a == 0 {
      PowerRange(z, b);
      MulOne(Power(z, b));
    } else {
      PowerAdd(z, a - 1, b);
      MulAssoc(z, Power(z, a - 1), Power(z, b));
    }
  }

  /** Lines such as 127: one squaring into `t`, then `n - 1` squarings in place. */
  method SqTimes(t: array<u32>, a: array<u32>, n: nat, ghost z: int, ghost e: nat)
    requires t.Length == 8 && a.Length == 8 && n >= 1 && Elem(a) == Power(z, e)
    modifies t
    ensures Small(t) && Elem(t) == Power(z, e * Pow2(n))
  {
    hide Power, Elem, Mul;
    SqTo(t, a);
    PowerAdd(z, e, e);
    ghost var f: nat := 2 * e;
    assert e * Pow2(1) == f;
    for i := 1 to n
      invariant Small(t) && Elem(t) == Power(z, f) && f == e * Pow2(i)
    {
      SqTo(t, t);
      PowerAdd(z, f, f);
      f := 2 * f;
      DoubleAgain(e, i);
    }
  }

  lemma DoubleAgain(e: nat, i: nat)
    ensures 2 * (e * Pow2(i)) == e * Pow2(i + 1)
  {
  }

  /** 2^a - 1 shifted by b bits and filled up is 2^(a+b) - 1. */
  lemma Ones(a: nat, b: nat)
    ensures (Pow2(a) - 1) * Pow2(b) + (Pow2(b) - 1) == Pow2(a + b) - 1
  {
    hide Pow2;
    Pow2Add(a, b);
    LessOne(Pow2(a), Pow2(b));
  }

  lemma LessOne(x: int, y: int)
    ensures (x - 1) * y == x * y - y
  {
  }

  method MulPowers(o: array<u32>, a: array<u32>, b: array<u32>, ghost z: int, ghost e: nat, ghost f: nat)
    requires o.Length == 8 && a.Length == 8 && b.Length == 8 && Elem(a) == Power(z, e) && Elem(b) == Power(z, f)
    modifies o
    ensures Small(o) && Elem(o) == Power(z, e + f)
  {
    MulTo(o, a, b);
    PowerAdd(z, e, f);
  }

  /** 2^n - 1, an exponent of `n` one bits. */
  ghost function OneBits(n: nat): nat { Pow2(n) - 1 }

  /** The pattern of lines 133-147: `t` gets the exponent of `a` shifted by `n` bits, filled up by that of `b`. */
  method Fill(o: array<u32>, t: array<u32>, a: array<u32>, m: nat, b: array<u32>, n: nat, ghost z: int)
    requires o.Length == 8 && t.Length == 8 && a.Length == 8 && b.Length == 8 && n >= 1 && t != b
    requires Elem(a) == Power(z, OneBits(m)) && Elem(b) == Power(z, OneBits(n))
    modifies o, t
    ensures Small(o) && Elem(o) == Power(z, OneBits(m + n))
  {
    hide Power, Pow2;
    SqTimes(t, a, n, z, OneBits(m));
    MulPowers(o, t, b, z, OneBits(m) * Pow2(n), OneBits(n));
    Ones(m, n);
  }

  lemma PowerOne(z: int)
    requires 0 <= z < P
    ensures Power(z, 1) == z
  {
    MulOne(z);
    assert Power(z, 0) == 1;
  }

  /** Lines 127-132: the exponents 11 in `t0` and 31 in `t1`. */
  method InvStart(t0: array<u32>, t1: array<u32>, t2: array<u32>, z: array<u32>)
    requires t0.Length == 8 && t1.Length == 8 && t2.Length == 8 && z.Length == 8
    requires t0 != t1 && t0 != t2 && t1 != t2 && z !in {t0, t1, t2}
    modifies t0, t1, t2
    ensures Elem(t0) == Power(Elem(z), 11) && Elem(t1) == Power(Elem(z), OneBits(5))
  {
    hide Power, Pow2, Elem;
    ghost var r := Elem(z);
    ElemRange(z);
    PowerOne(r);
    SmallPowers();
    SqTimes(t0, z, 1, r, 1);
    SqTimes(t1, t0, 2, r, 2);
    MulPowers(t1, z, t1, r, 1, 8);
    MulPowers(t0, t0, t1, r, 2, 9);
    SqTimes(t2, t0, 1, r, 11);
    MulPowers(t1, t1, t2, r, 9, 22);
  }

  /** Lines 133-146: from 5 one bits in `t1` to 250. */
  method InvFill(t1: array<u32>, t2: array<u32>, t3: array<u32>, ghost r: int)
    requires t1.Length == 8 && t2.Length == 8 && t3.Length == 8 && t1 != t2 && t1 != t3 && t2 != t3
    requires Elem(t1) == Power(r, OneBits(5))
    modifies t1, t2, t3
    ensures Elem(t1) == Power(r, OneBits(250))
  {
    hide Power, OneBits, Elem;
    Fill(t1, t2, t1, 5, t1, 5, r);
    Fill(t2, t2, t1, 10, t1, 10, r);
    Fill(t2, t3, t2, 20, t2, 20, r);
    Fill(t1, t2, t2, 40, t1, 10, r);
    Fill(t2, t2, t1, 50, t1, 50, r);
    Fill(t2, t3, t2, 100, t2, 100, r);
    Fill(t1, t2, t2, 200, t1, 50, r);
  }

  /** The inversion of lines 122-151 raises to the power p - 2 = 2^255 - 21. */
  method Inv(o: array<u32>, z: array<u32>)
    requires o.Length == 8 && z.Length == 8
    modifies o
    ensures Small(o) && Elem(o) == Power(old(Elem(z)), P - 2)
  {
    hide Power, Pow2, Elem, OneBits;
    ghost var r := Elem(z);
    var t0, t1, t2, t3 := new u32[8], new u32[8], new u32[8], new u32[8];
    InvStart(t0, t1, t2, z);
    InvFill(t1, t2, t3, r);
    SqTimes(t1, t1, 5, r, OneBits(250));
    MulPowers(o, t1, t0, r, OneBits(250) * Pow2(5), 11);
    LastExponent();
  }

  lemma ElemRange(a: array<u32>)
    ensures 0 <= Elem(a) < P
  {
  }

  lemma SmallPowers()
    ensures Pow2(1) == 2 && Pow2(2) == 4 && Pow2(5) == 32 && OneBits(5) == 31
  {
  }

  lemma LastExponent()
    ensures OneBits(250) * Pow2(5) + 11 == P - 2
  {
    hide Pow2;
    Pow2At32();
    SmallPowers();
    Pow2Add(64, 64);
    Pow2Add(128, 64);
    Pow2Add(192, 32);
    Pow2Add(224, 16);
    Pow2At8();
    Pow2Add(240, 8);
    Pow2Add(248, 2);
  }

  // ----- bytes

  const P_LIMBS: seq<u32> := [0xffff_ffed, 0xffff_ffff, 0xffff_ffff, 0xffff_ffff,
                              0xffff_ffff, 0xffff_ffff, 0xffff_ffff, 0x7fff_ffff]

  lemma PLimbsValue()
    ensures Val(P_LIMBS) == P
  {
    var lo: seq<int>, hi: seq<int> := P_LIMBS[..4], P_LIMBS[4..];
    ValConcat(lo, hi);
    assert lo + hi == P_LIMBS;
    Val4(lo);
    Val4(hi);
    assert Base(4) == 0x1_0000_0000_0000_0000_0000_0000_0000_0000;
  }

  /** The bytes of a sequence of words. */
  function WordBytes(s: seq<u32>): (b: seq<byte>)
    ensures |b| == 4 * |s|
  {
    if |s| == 0 then [] else Pack32(s[0]) + WordBytes(s[1..])
  }

  lemma {:induction false} WordBytesSnoc(s: seq<u32>, x: u32)
    ensures WordBytes(s + [x]) == WordBytes(s) + Pack32(x)
  {
    if |s| == 0 {
      assert s + [x] == [x] && [x][1..] == [];
    } else {
      assert (s + [x])[1..] == s[1..] + [x];
      WordBytesSnoc(s[1..], x);
    }
  }

  lemma ToLeZero()
    ensures ToLe(0, 0) == []
  {
  }

  lemma {:induction false} WordBytesLe(s: seq<u32>)
    ensures Val(s) >= 0 && WordBytes(s) == ToLe(Val(s), 4 * |s|)
  {
    hide ToLe, Pack32;
    if |s| == 0 {
      ToLeZero();
    } else {
      WordBytesLe(s[1..]);
      var v := Val(s[1..]);
      assert Val(s) == s[0] + 0x1_0000_0000 * v;
      ToLe4Split(Val(s), 4 * |s|);
      Pack32IsToLe(s[0]);
    }
  }

  /** One conditional subtraction of p. */
  function Once(v: nat): (r: nat)
    ensures r == v || r == v - P
  {
    if v < P then v else v - P
  }

  /**
  `fe25519_tobytes`, lines 187-196: p is subtracted at most once, least significant byte first. That is the canonical
  representative exactly if the number is below 2 p, as every operation leaves it.
  */
  method ToBytes(a: array<u32>) returns (out: seq<byte>)
    requires a.Length == 8
    ensures Val(a[..]) >= 0 && out == ToLe(Once(Val(a[..])), 32)
    ensures out == ToLe(Elem(a), 32) <==> Val(a[..]) < 2 * P
  {
    hide Val, ToLe, Pack32;
    ghost var sa := a[..];
    var x := new u32[8];
    for i := 0 to 8
      invariant a[..] == sa && x[..i] == sa[..i]
    {
      x[i] := a[i];
    }
    assert x[..] == sa;
    PLimbsValue();
    WordBound(x[..]);
    Canonical(Val(sa));
    Fe.ReduceSmall(x, P_LIMBS, 0);
    assert a[..] == sa && Val(x[..]) == Once(Val(sa));
    ghost var sx := x[..];
    out := [];
    for i := 0 to 8
      invariant a[..] == sa && x[..] == sx && out == WordBytes(sx[..i])
    {
      assert sx[..i + 1] == sx[..i] + [sx[i]];
      WordBytesSnoc(sx[..i], x[i]);
      out := out + Pack32(x[i]);
    }
    assert sx[..8] == sx;
    WordBytesLe(sx);
  }

  lemma CanonicalResidue(x: int)
    requires 0 <= x < 2 * P
    ensures Residue(x) == if x < P then x else x - P
  {
    if x < P {
      ModSmall(x, P);
    } else {
      ModPlus(x, -1, P);
      ModSmall(x - P, P);
    }
  }

  lemma Canonical(v: nat)
    requires v < Base(8)
    ensures ToLe(Once(v), 32) == ToLe(Residue(v), 32) <==> v < 2 * P
  {
    if v < 2 * P {
      CanonicalResidue(v);
    } else {
      BaseAt8();
      ModPlus(v, -2, P);
      ModSmall(v - 2 * P, P);
      assert ToLe(v - P, 32)[0] == (v - P) % 256 && ToLe(v - 2 * P, 32)[0] == (v - 2 * P) % 256;
    }
  }

  lemma {:induction false} WordsLe(s: seq<u32>, b: seq<byte>)
    requires |b| == 4 * |s| && forall i :: 0 <= i < |s| ==> s[i] == Unpack32(b, 4 * i)
    ensures Val(s) == Le(b)
  {
    if |s| != 0 {
      var c := b[4..];
      forall i | 0 <= i < |s| - 1
        ensures s[1..][i] == Unpack32(c, 4 * i)
      {
        assert s[1..][i] == s[i + 1] == Unpack32(b, 4 * (i + 1));
      }
      WordsLe(s[1..], c);
      LeConcat(b[..4], c);
      assert b == b[..4] + c;
      Le4(b[..4]);
      assert Pow256(4) == 0x1_0000_0000;
    }
  }

  lemma TopBitCleared(s: seq<u32>)
    requires |s| == 8
    ensures Val(s[7 := s[7] % 0x8000_0000])
            == Val(s) % 0x8000_0000_0000_0000_0000_0000_0000_0000_0000_0000_0000_0000_0000_0000_0000_0000
  {
    hide Val, Base;
    var t := s[7 := s[7] % 0x8000_0000];
    ValUpdate(s, 7, s[7] % 0x8000_0000);
    BaseAt8();
    ValTake(t, 7);
    assert t[..8] == t;
    WordBound(t[..7]);
    DivModUnique(Val(s), 0x8000_0000_0000_0000_0000_0000_0000_0000_0000_0000_0000_0000_0000_0000_0000_0000,
                 s[7] / 0x8000_0000, Val(t));
  }

  /** `fe25519_frombytes`, lines 201-207: the top bit is ignored. */
  method FromBytes(out: array<u32>, p: seq<byte>)
    requires out.Length == 8 && |p| == 32
    modifies out
    ensures Val(out[..]) == DecodeU(p)
  {
    hide Val, Unpack32;
    for i := 0 to 8
      invariant forall k :: 0 <= k < i ==> out[k] == Unpack32(p, 4 * k)
    {
      out[i] := Unpack32(p, 4 * i);
    }
    WordsLe(out[..], p);
    TopBitCleared(out[..]);
    ghost var s := out[..];
    out[7] := out[7] % 0x8000_0000;
    assert out[..] == s[7 := s[7] % 0x8000_0000];
  }

  // ----- the ladder

  ghost function State(x2: array<u32>, z2: array<u32>, x3: array<u32>, z3: array<u32>): Points
    reads x2, z2, x3, z3
  {
    Points(Elem(x2), Elem(z2), Elem(x3), Elem(z3))
  }

  /** The source adds 121666 (AA - BB) to BB where RFC 7748 adds 121665 (AA - BB) to AA. */
  lemma SameMultiple(AA: int, BB: int)
    requires 0 <= AA < P && 0 <= BB < P
    ensures var E := Sub(AA, BB); Add(BB, Mul(121666, E)) == Add(AA, Mul(121665, E))
  {
    var E := Sub(AA, BB);
    ModIdem(AA - BB, P);
    ModIdem(121666 * E, P);
    ModIdem(121665 * E, P);
    ModAdd(BB, BB, 121666 * E % P, 121666 * E, P);
    ModAdd(AA, AA, 121665 * E % P, 121665 * E, P);
    ModAdd(BB + 121665 * E, BB + 121665 * E, E, AA - BB, P);
  }

  ghost predicate Distinct(x1: array<u32>, x2: array<u32>, z2: array<u32>, x3: array<u32>, z3: array<u32>,
                           tmp0: array<u32>, tmp1: array<u32>)
  {
    && x1.Length == x2.Length == z2.Length == x3.Length == z3.Length == tmp0.Length == tmp1.Length == 8
    && x1 !in {x2, z2, x3, z3, tmp0, tmp1} && x2 !in {z2, x3, z3, tmp0, tmp1} && z2 !in {x3, z3, tmp0, tmp1}
    && x3 !in {z3, tmp0, tmp1} && z3 !in {tmp0, tmp1} && tmp0 != tmp1
  }

  /** Lines 32-49: one step of the ladder, in place. */
  method StepInPlace(x1: array<u32>, x2: array<u32>, z2: array<u32>, x3: array<u32>, z3: array<u32>,
                     tmp0: array<u32>, tmp1: array<u32>)
    requires Distinct(x1, x2, z2, x3, z3, tmp0, tmp1)
    modifies x2, z2, x3, z3, tmp0, tmp1
    ensures State(x2, z2, x3, z3) == Step(Elem(x1), old(State(x2, z2, x3, z3)))
    ensures Small(x2) && Small(z2) && Small(x3) && Small(z3)
  {
    hide Elem, Add, Sub, Mul;
    SubTo(tmp0, x3, z3);
    SubTo(tmp1, x2, z2);
    AddTo(x2, x2, z2);
    AddTo(z2, x3, z3);
    MulTo(z3, tmp0, x2);
    MulTo(z2, z2, tmp1);
    SqTo(tmp0, tmp1);
    SqTo(tmp1, x2);
    AddTo(x3, z3, z2);
    SubTo(z2, z3, z2);
    MulTo(x2, tmp1, tmp0);
    ghost var AA, BB := Elem(tmp1), Elem(tmp0);
    ElemRange(tmp0);
    ElemRange(tmp1);
    SameMultiple(AA, BB);
    SubTo(tmp1, tmp1, tmp0);
    SqTo(z2, z2);
    Mul121666(z3, tmp1);
    SqTo(x3, x3);
    AddTo(tmp0, tmp0, z3);
    MulTo(z3, x1, z2);
    MulTo(z2, tmp1, tmp0);
  }

  /** Lines 14-16: the scalar is clamped in place. */
  function ClampScalar(n: seq<byte>): (e: seq<byte>)
    requires |n| == 32
    ensures e == DecodeScalar(n)
  {
    ClampedBytes(n[0], n[31]);
    [And(n[0], 248)] + n[1..31] + [Or(And(n[31], 127), 64)]
  }

  lemma ClampedBytes(x: byte, y: byte)
    ensures And(x, 248) == x - x % 8
    ensures Or(And(y, 127), 64) == y % 64 + 64
  {
    hide Or, And;
    ClearLow3(x);
    SetBit6(y);
  }

  lemma ClearLow3(x: byte)
    ensures And(x, 248) == x - x % 8
  {
    assert Pow2(3) == 8 && Pow2(5) == 32;
    hide Pow2, And;
    var h := x / 8;
    AndSplit(x, 248, 3, 8, x % 8, h, 0, 31);
    AndOnes(h, 5);
    ModSmall(h, 32);
    Fe.AndZero(x % 8);
  }

  lemma SetBit6(y: byte)
    ensures Or(And(y, 127), 64) == y % 64 + 64
  {
    assert Pow2(6) == 64 && Pow2(7) == 128;
    hide Pow2, And, Or;
    AndOnes(y, 7);
    OrBit(y % 128, 6);
    DivModBase(y, 64, 2);
  }

  /** Bit `i` of a little-endian byte string is bit `i % 8` of byte `i / 8`. */
  lemma {:induction false} BitOfByte(e: seq<byte>, i: nat)
    requires i < 8 * |e|
    ensures Le(e) / Pow2(i) % 2 == e[i / 8] / Pow2(i % 8) % 2
  {
    hide Pow2;
    LeParts(e);
    hide Le;
    var t, l := e[1..], Le(e);
    if i < 8 {
      LowBits(e[0], Le(t), i);
    } else {
      var j := i - 8;
      BitOfByte(t, j);
      Pow2Add(8, j);
      Pow2At8();
      DivModBase(l, 256, Pow2(j));
      assert i / 8 == j / 8 + 1 && i % 8 == j % 8;
      assert t[j / 8] == e[i / 8];
    }
  }

  lemma LeParts(e: seq<byte>)
    requires e != []
    ensures Le(e) == e[0] + 256 * Le(e[1..]) && Le(e) / 256 == Le(e[1..])
  {
  }

  lemma LowBits(b: byte, h: nat, i: nat)
    requires i < 8
    ensures (b + 256 * h) / Pow2(i) % 2 == b / Pow2(i) % 2
  {
    assert Pow2(7) == 128;
    hide Pow2;
    Pow2Add(i, 7 - i);
    ShiftLow(b, h, Pow2(i), Pow2(7 - i));
  }

  lemma ShiftLow(b: byte, h: nat, p: nat, q: nat)
    requires p > 0 && p * q == 128
    ensures (b + 256 * h) / p % 2 == b / p % 2
  {
    var d, r, t := b / p, b % p, q * h;
    assert b == p * d + r;
    assert p * t == 128 * h by { assert p * (q * h) == (p * q) * h; }
    assert b + 256 * h == (d + 2 * t) * p + r by { assert (d + 2 * t) * p == p * d + 2 * (p * t); }
    DivModUnique(b + 256 * h, p, d + 2 * t, r);
  }

  /** The state the arrays stand for once a swap still to be made is made. */
  ghost function Pending(s: Points, swap: u32): Points { if swap == 1 then Swapped(s) else s }

  /**
  What the loop keeps: after the bits of `m / 2` the arrays hold the ladder of those bits up to the
  delayed swap, and one more bit extends this to `m`.
  */
  lemma LadderStep(m: nat, n: nat, u: int, s: Points, swap: u32, b: u32)
    requires swap <= 1 && b == m % 2
    requires Pending(s, swap) == Ladder(m / 2, n, u)
    ensures Pending(Step(Residue(u), Pending(s, if swap == b then 0 else 1)), b) == Ladder(m, n + 1, u)
  {
    hide Step, Residue;
  }

  /** The bits of `k` from bit `pos` upwards. */
  ghost function Above(k: nat, pos: nat): nat { DivNat(k, Pow2(pos)); k / Pow2(pos) }

  lemma DivNat(k: nat, p: nat)
    requires p > 0
    ensures k / p >= 0
  {
  }

  lemma AboveNext(k: nat, pos: nat)
    ensures Above(k, pos + 1) == Above(k, pos) / 2
  {
    var p := Pow2(pos);
    DivModBase(k, p, 2);
    assert Pow2(pos + 1) == p * 2;
  }

  lemma AboveZero(k: nat)
    ensures Above(k, 0) == k
  {
    assert Pow2(0) == 1;
  }

  lemma XorBits(x: u32, y: u32)
    requires x <= 1 && y <= 1
    ensures Xor(x, y) == if x == y then 0 else 1
  {
  }

  /** Lines 23-26: the conditional swaps of one iteration. */
  method SwapBoth(x2: array<u32>, z2: array<u32>, x3: array<u32>, z3: array<u32>, swap: u32)
    requires x2.Length == 8 && z2.Length == 8 && x3.Length == 8 && z3.Length == 8 && swap <= 1
    requires x2 !in {z2, x3, z3} && z2 !in {x3, z3} && x3 != z3
    modifies x2, z2, x3, z3
    ensures State(x2, z2, x3, z3) == old(Pending(State(x2, z2, x3, z3), swap))
  {
    Fe.Cswap(x2, x3, swap);
    Fe.Cswap(z2, z3, swap);
  }

  /** `fe_0` and `fe_1` of `fe.c`, lines 12-24. */
  method SetWord(o: array<u32>, w: u32)
    requires o.Length == 8
    modifies o
    ensures Val(o[..]) == w
  {
    for i := 0 to 8
      invariant forall k :: 0 <= k < i ==> o[k] == 0
    {
      o[i] := 0;
    }
    Fe.ValZero(o[..]);
    ghost var s: seq<int> := o[..];
    ValUpdate(s, 0, w);
    o[0] := w;
    assert o[..] == s[0 := w];
  }

  /** Lines 17-21: the first point is the neutral element, the second the given one. */
  method Start(x1: array<u32>, x2: array<u32>, z2: array<u32>, x3: array<u32>, z3: array<u32>, p: seq<byte>)
    requires x1.Length == x2.Length == z2.Length == x3.Length == z3.Length == 8 && |p| == 32
    requires x1 !in {x2, z2, x3, z3} && x2 !in {z2, x3, z3} && z2 !in {x3, z3} && x3 != z3
    modifies x1, x2, z2, x3, z3
    ensures Elem(x1) == Residue(DecodeU(p)) && State(x2, z2, x3, z3) == Points(1, 0, Residue(DecodeU(p)), 1)
  {
    hide Val;
    FromBytes(x1, p);
    SetWord(x2, 1);
    SetWord(z2, 0);
    ghost var s := x1[..];
    for i := 0 to 8
      invariant x3[..i] == s[..i] && x1[..] == s && Val(x2[..]) == 1 && Val(z2[..]) == 0
    {
      x3[i] := x1[i];
    }
    assert x3[..] == s;
    SetWord(z3, 1);
    ModSmall(0, P);
    ModSmall(1, P);
  }

  lemma LadderStart(m: nat, u: int)
    ensures Ladder(m, 0, u) == Points(1, 0, Residue(u), 1)
  {
  }

  /** Lines 25-49: one iteration of the loop. */
  method Iterate(x1: array<u32>, x2: array<u32>, z2: array<u32>, x3: array<u32>, z3: array<u32>,
                 tmp0: array<u32>, tmp1: array<u32>, e: seq<byte>, pos: nat, swap: u32, ghost u: int) returns (b: u32)
    requires Distinct(x1, x2, z2, x3, z3, tmp0, tmp1) && |e| == 32 && pos <= 254 && swap <= 1
    requires Elem(x1) == Residue(u)
    requires Pending(State(x2, z2, x3, z3), swap) == Ladder(Above(Le(e), pos + 1), 254 - pos, u)
    modifies x2, z2, x3, z3, tmp0, tmp1
    ensures Pending(State(x2, z2, x3, z3), b) == Ladder(Above(Le(e), pos), 255 - pos, u)
    ensures b <= 1
  {
    hide Elem, Ladder, Le, Xor, Residue;
    BitOfByte(e, pos);
    AboveNext(Le(e), pos);
    b := e[pos / 8] / Pow2(pos % 8) % 2;
    ghost var m := Above(Le(e), pos);
    assert b == m % 2;
    hide Above, Pow2;
    LadderStep(m, 254 - pos, u, State(x2, z2, x3, z3), swap, b);
    XorBits(swap, b);
    var flip := Xor(swap, b);
    SwapBoth(x2, z2, x3, z3, flip);
    StepInPlace(x1, x2, z2, x3, z3, tmp0, tmp1);
  }

  /** Lines 52-57: the swap left over, the division of x2 by z2 and the bytes. */
  method Finish(x2: array<u32>, z2: array<u32>, x3: array<u32>, z3: array<u32>, swap: u32) returns (q: seq<byte>)
    requires x2.Length == 8 && z2.Length == 8 && x3.Length == 8 && z3.Length == 8 && swap <= 1
    requires x2 !in {z2, x3, z3} && z2 !in {x3, z3} && x3 != z3
    modifies x2, z2, x3, z3
    ensures var s := old(Pending(State(x2, z2, x3, z3), swap)); q == ToLe(Mul(s.x2, Power(s.z2, P - 2)), 32)
  {
    hide Elem, Power;
    SwapBoth(x2, z2, x3, z3, swap);
    Inv(z2, z2);
    MulTo(x2, x2, z2);
    q := ToBytes(x2);
  }

  /** Lines 6-57: the bytes are those of X25519. */
  method Scalarmult(n: seq<byte>, p: seq<byte>) returns (q: seq<byte>)
    requires |n| == 32 && |p| == 32
    ensures q == ScalarMult(n, p)
  {
    hide Elem, Ladder, Le, ToLe, Residue, Above, Power;
    var e := ClampScalar(n);
    ghost var k, u := Le(e), DecodeU(p);
    var x1, x2, z2, x3, z3 := new u32[8], new u32[8], new u32[8], new u32[8], new u32[8];
    var tmp0, tmp1 := new u32[8], new u32[8];
    Start(x1, x2, z2, x3, z3, p);
    LadderStart(Above(k, 255), u);
    var swap: u32 := 0;
    var pos := 254;
    while pos >= 0
      invariant -1 <= pos <= 254 && swap <= 1
      invariant Elem(x1) == Residue(u)
      invariant Pending(State(x2, z2, x3, z3), swap) == Ladder(Above(k, pos + 1), 254 - pos, u)
    {
      swap := Iterate(x1, x2, z2, x3, z3, tmp0, tmp1, e, pos, swap, u);
      pos := pos - 1;
    }
    AboveZero(k);
    q := Finish(x2, z2, x3, z3, swap);
  }
}
