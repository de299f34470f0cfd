/**
The one-time authenticator of `crypto_onetimeauth_poly1305.c`: an accumulator of five 26-bit
limbs, multiplied and reduced with 32 and 64-bit words, proved equal to the few lines of integer
arithmetic of section 2.5 of RFC 8439.
*/
module Poly1305 {
  import opened Bits
  import opened Bytes
  import opened Modular

  // ----- the specification: section 2.5 of RFC 8439

  const P: int := 0x3_ffff_ffff_ffff_ffff_ffff_ffff_ffff_fffb  // 2^130 - 5

  /** The number of one block: its bytes with a one byte appended. */
  function Block(b: seq<byte>): nat { Le(b) + Pow256(|b|) }

  /** The accumulator after the message `m`, starting from `a`. */
  function Accumulate(a: nat, m: seq<byte>, r: nat): nat
    decreases |m|
  {
    if |m| == 0 then a
    else
      var n := if |m| < 16 then |m| else 16;
      Accumulate((a + Block(m[..n])) * r % P, m[n..], r)
  }

  /** Bytes 3, 7, 11 and 15 lose their top four bits, bytes 4, 8 and 12 their bottom two. */
  function Clamp(k: seq<byte>): seq<byte>
    requires |k| == 16
  {
    [k[0], k[1], k[2], k[3] % 16, k[4] - k[4] % 4, k[5], k[6], k[7] % 16,
     k[8] - k[8] % 4, k[9], k[10], k[11] % 16, k[12] - k[12] % 4, k[13], k[14], k[15] % 16]
  }

  function Mac(m: seq<byte>, k: seq<byte>): (o: seq<byte>)
    requires |k| == 32
    ensures |o| == 16
  {
    var r := Le(Clamp(k[..16]));
    ToLe((Accumulate(0, m, r) + Le(k[16..])) % 0x1_0000_0000_0000_0000_0000_0000_0000_0000, 16)
  }

  // ----- limbs

  datatype Limbs = Limbs(a0: u32, a1: u32, a2: u32, a3: u32, a4: u32)

  function Sum5(a0: int, a1: int, a2: int, a3: int, a4: int): int
  {
    a0 + 0x400_0000 * a1 + 0x10_0000_0000_0000 * a2 + 0x4000_0000_0000_0000_0000 * a3
    + 0x100_0000_0000_0000_0000_0000_0000 * a4
  }

  function Value(h: Limbs): nat { Sum5(h.a0, h.a1, h.a2, h.a3, h.a4) }

  /** What holds of the accumulator between blocks: reduced, up to a small carry left in limb 1. */
  predicate Carried(h: Limbs) { h.a0 < 0x400_0000 && h.a1 < 0x400_0000 + 64 && h.a2 < 0x400_0000 && h.a3 < 0x400_0000
                               && h.a4 < 0x400_0000 }

  predicate Reduced(h: Limbs) { h.a0 < 0x400_0000 && h.a1 < 0x400_0000 && h.a2 < 0x400_0000 && h.a3 < 0x400_0000
                               && h.a4 < 0x400_0000 }

  function Mask26(x: nat): (r: nat)
    ensures r == x % 0x400_0000
  {
    Mask26Is(x);
    And(x, 0x3ff_ffff)
  }

  lemma Pow2Small()
    ensures Pow2(6) == 0x40 && Pow2(8) == 0x100 && Pow2(12) == 0x1000 && Pow2(14) == 0x4000
    ensures Pow2(20) == 0x10_0000 && Pow2(24) == 0x100_0000 && Pow2(26) == 0x400_0000
  {
    assert Pow2(6) == 0x40 && Pow2(8) == 0x100;
    Pow2Add(6, 6);
    Pow2Add(8, 6);
    Pow2Add(12, 8);
    Pow2Add(12, 12);
    Pow2Add(20, 6);
  }

  lemma Mask26Is(x: nat)
    ensures And(x, 0x3ff_ffff) == x % 0x400_0000
  {
    Pow2Small();
    AndOnes(x, 26);
  }

  // ----- loading the key and the message (lines 46-81)

  /** Lines 46-50. */
  function LoadR(k: seq<byte>): Limbs
    requires |k| >= 16
  {
    Limbs(And(Unpack32(k, 0), 0x3ff_ffff),
          And(Unpack32(k, 3) / 4, 0x3ff_ff03),
          And(Unpack32(k, 6) / 16, 0x3ff_c0ff),
          And(Unpack32(k, 9) / 64, 0x3f0_3fff),
          And(Unpack32(k, 12) / 256, 0x00f_ffff))
  }

  function LoadBlock(m: seq<byte>, top: u32): Limbs
    requires |m| >= 16
  {
    Limbs(Mask26(Unpack32(m, 0)),
          Mask26(Unpack32(m, 3) / 4),
          Mask26(Unpack32(m, 6) / 16),
          Mask26(Unpack32(m, 9) / 64),
          U32(Or(Unpack32(m, 12) / 256, top)))
  }

  function Word(a: nat, b: nat, c: nat, d: nat): nat { a + 0x100 * b + 0x1_0000 * c + 0x100_0000 * d }

  function At(s: seq<byte>, i: nat): (b: nat)
    requires i < |s|
    ensures b < 256
  {
    s[i]
  }

  function Words4(w0: int, w1: int, w2: int, w3: int): int
  {
    w0 + 0x1_0000_0000 * w1 + 0x1_0000_0000_0000_0000 * w2 + 0x1_0000_0000_0000_0000_0000_0000 * w3
  }

  lemma Le16(s: seq<byte>)
    requires |s| == 16
    ensures Le(s) == Words4(Word(At(s, 0), At(s, 1), At(s, 2), At(s, 3)), Word(At(s, 4), At(s, 5), At(s, 6), At(s, 7)),
                            Word(At(s, 8), At(s, 9), At(s, 10), At(s, 11)),
                              Word(At(s, 12), At(s, 13), At(s, 14), At(s, 15)))
  {
    Le4Then(s);
    Le4Then(s[4..]);
    Le4Then(s[8..]);
    Le4Then(s[12..]);
    assert s[4..][4..] == s[8..] && s[8..][4..] == s[12..];
  }

  lemma Le4Then(s: seq<byte>)
    requires |s| >= 4
    ensures Le(s) == Unpack32(s, 0) + 0x1_0000_0000 * Le(s[4..])
  {
    LeConcat(s[..4], s[4..]);
    assert s[..4] + s[4..] == s;
    Le4(s[..4]);
    assert Pow256(4) == 0x1_0000_0000;
  }

  lemma LimbShift3(a: nat, b: nat, c: nat, d: nat)
    requires a < 256 && b < 256 && c < 256 && d < 256
    ensures Word(a, b, c, d) / 4 % 0x400_0000 == a / 4 + 0x40 * b + 0x4000 * c + 0x40_0000 * (d % 16)
    ensures Word(a, b, c, d) / 4 % 4 == a / 4 % 4
    ensures Word(a, b, c, d) / 4 / 256 % 0x4_0000 == b / 4 + 0x40 * c + 0x4000 * (d % 16)
  {
    var w := Word(a, b, c, d);
    DivModUnique(w, 4, a / 4 + 0x40 * b + 0x4000 * c + 0x40_0000 * d, a % 4);
    DivModUnique(w / 4, 0x400_0000, d / 16, a / 4 + 0x40 * b + 0x4000 * c + 0x40_0000 * (d % 16));
    DivModUnique(w / 4, 4, a / 16 + 0x10 * b + 0x1000 * c + 0x10_0000 * d, a / 4 % 4);
    DivModUnique(w / 4, 256, b / 4 + 0x40 * c + 0x4000 * d, a / 4 + 0x40 * (b % 4));
    DivModUnique(w / 4 / 256, 0x4_0000, d / 16, b / 4 + 0x40 * c + 0x4000 * (d % 16));
  }

  lemma LimbShift6(a: nat, b: nat, c: nat, d: nat)
    requires a < 256 && b < 256 && c < 256 && d < 256
    ensures Word(a, b, c, d) / 16 % 0x400_0000 == a / 16 + 0x10 * b + 0x1000 * c + 0x10_0000 * (d % 64)
    ensures Word(a, b, c, d) / 16 % 256 == a / 16 + 0x10 * (b % 16)
    ensures Word(a, b, c, d) / 16 / 0x4000 % 0x1000 == c / 4 + 0x40 * (d % 64)
  {
    var w := Word(a, b, c, d);
    DivModUnique(w, 16, a / 16 + 0x10 * b + 0x1000 * c + 0x10_0000 * d, a % 16);
    DivModUnique(w / 16, 0x400_0000, d / 64, a / 16 + 0x10 * b + 0x1000 * c + 0x10_0000 * (d % 64));
    DivModUnique(w / 16, 256, b / 16 + 0x10 * c + 0x1000 * d, a / 16 + 0x10 * (b % 16));
    DivModUnique(w / 16, 0x4000, c / 4 + 0x40 * d, a / 16 + 0x10 * b + 0x1000 * (c % 4));
    DivModUnique(w / 16 / 0x4000, 0x1000, d / 64, c / 4 + 0x40 * (d % 64));
  }

  lemma LimbShift9(a: nat, b: nat, c: nat, d: nat)
    requires a < 256 && b < 256 && c < 256 && d < 256
    ensures Word(a, b, c, d) / 64 % 0x400_0000 == a / 64 + 4 * b + 0x400 * c + 0x4_0000 * d
    ensures Word(a, b, c, d) / 64 % 0x4000 == a / 64 + 4 * b + 0x400 * (c % 16)
    ensures Word(a, b, c, d) / 64 / 0x10_0000 % 0x40 == d / 4
  {
    var w := Word(a, b, c, d);
    DivModUnique(w, 64, a / 64 + 4 * b + 0x400 * c + 0x4_0000 * d, a % 64);
    DivModUnique(w / 64, 0x4000, c / 16 + 0x10 * d, a / 64 + 4 * b + 0x400 * (c % 16));
    DivModUnique(w / 64, 0x10_0000, d / 4, a / 64 + 4 * b + 0x400 * c + 0x4_0000 * (d % 4));
  }

  lemma LimbShift12(a: nat, b: nat, c: nat, d: nat)
    requires a < 256 && b < 256 && c < 256 && d < 256
    ensures Word(a, b, c, d) / 256 == b + 0x100 * c + 0x1_0000 * d
    ensures Word(a, b, c, d) / 256 % 0x10_0000 == b + 0x100 * c + 0x1_0000 * (d % 16)
  {
    var w := Word(a, b, c, d);
    DivModUnique(w, 256, b + 0x100 * c + 0x1_0000 * d, a);
    DivModUnique(w / 256, 0x10_0000, d / 16, b + 0x100 * c + 0x1_0000 * (d % 16));
  }

  lemma LimbShift0(a: nat, b: nat, c: nat, d: nat)
    requires a < 256 && b < 256 && c < 256 && d < 256
    ensures Word(a, b, c, d) % 0x400_0000 == a + 0x100 * b + 0x1_0000 * c + 0x100_0000 * (d % 4)
  {
    DivModUnique(Word(a, b, c, d), 0x400_0000, d / 4, a + 0x100 * b + 0x1_0000 * c + 0x100_0000 * (d % 4));
  }

  lemma BlockLimb0(m: seq<byte>)
    requires |m| == 16
    ensures Mask26(Unpack32(m, 0)) == At(m, 0) + 0x100 * At(m, 1) + 0x1_0000 * At(m, 2) + 0x100_0000 * (At(m, 3) % 4)
  {
    hide And;
    LimbShift0(At(m, 0), At(m, 1), At(m, 2), At(m, 3));
  }

  lemma BlockLimb1(m: seq<byte>)
    requires |m| == 16
    ensures Mask26(Unpack32(m, 3) / 4) == At(m, 3) / 4 + 0x40 * At(m, 4) + 0x4000 * At(m, 5)
                                          + 0x40_0000 * (At(m, 6) % 16)
  {
    hide And;
    LimbShift3(At(m, 3), At(m, 4), At(m, 5), At(m, 6));
  }

  lemma BlockLimb2(m: seq<byte>)
    requires |m| == 16
    ensures Mask26(Unpack32(m, 6) / 16) == At(m, 6) / 16 + 0x10 * At(m, 7) + 0x1000 * At(m, 8)
                                           + 0x10_0000 * (At(m, 9) % 64)
  {
    hide And;
    LimbShift6(At(m, 6), At(m, 7), At(m, 8), At(m, 9));
  }

  lemma BlockLimb3(m: seq<byte>)
    requires |m| == 16
    ensures Mask26(Unpack32(m, 9) / 64) == At(m, 9) / 64 + 4 * At(m, 10) + 0x400 * At(m, 11) + 0x4_0000 * At(m, 12)
  {
    hide And;
    LimbShift9(At(m, 9), At(m, 10), At(m, 11), At(m, 12));
  }

  lemma BlockLimb4(m: seq<byte>)
    requires |m| == 16
    ensures Unpack32(m, 12) / 256 == At(m, 13) + 0x100 * At(m, 14) + 0x1_0000 * At(m, 15)
  {
    hide And;
    LimbShift12(At(m, 12), At(m, 13), At(m, 14), At(m, 15));
  }

  lemma LoadBlockLimbs(m: seq<byte>, top: u32)
    requires |m| == 16 && (top == 0 || top == 0x100_0000)
    ensures var h := LoadBlock(m, top);
            && h.a0 == At(m, 0) + 0x100 * At(m, 1) + 0x1_0000 * At(m, 2) + 0x100_0000 * (At(m, 3) % 4)
            && h.a1 == At(m, 3) / 4 + 0x40 * At(m, 4) + 0x4000 * At(m, 5) + 0x40_0000 * (At(m, 6) % 16)
            && h.a2 == At(m, 6) / 16 + 0x10 * At(m, 7) + 0x1000 * At(m, 8) + 0x10_0000 * (At(m, 9) % 64)
            && h.a3 == At(m, 9) / 64 + 4 * At(m, 10) + 0x400 * At(m, 11) + 0x4_0000 * At(m, 12)
            && h.a4 == At(m, 13) + 0x100 * At(m, 14) + 0x1_0000 * At(m, 15) + top
            && h.a0 < 0x400_0000 && h.a1 < 0x400_0000 && h.a2 < 0x400_0000 && h.a3 < 0x400_0000 && h.a4 < 0x200_0000
  {
    hide And, Or, U32, Unpack32, Mask26, At;
    BlockLimb0(m);
    BlockLimb1(m);
    BlockLimb2(m);
    BlockLimb3(m);
    BlockLimb4(m);
    TopBit(Unpack32(m, 12) / 256, top);
  }

  /** A block is cut into limbs without loss, the `top` bit being bit 128. */
  lemma LoadBlockValue(m: seq<byte>, top: u32)
    requires |m| == 16 && (top == 0 || top == 0x100_0000)
    ensures Value(LoadBlock(m, top)) == Le(m) + 0x1_0000_0000_0000_0000_0000_0000_0000_0000 * (top / 0x100_0000)
  {
    hide Le, LoadBlock, Word, Words4;
    LoadBlockLimbs(m, top);
    Le16(m);
    LimbSum(At(m, 0), At(m, 1), At(m, 2), At(m, 3) % 4, At(m, 3) / 4, At(m, 4), At(m, 5), At(m, 6) % 16, At(m, 6) / 16,
            At(m, 7), At(m, 8), At(m, 9) % 64, At(m, 9) / 64, At(m, 10), At(m, 11), At(m, 12), At(m, 13), At(m, 14),
              At(m, 15));
  }

  /** Sixteen bytes, three of them cut at a limb boundary, read as limbs and as words. */
  lemma LimbSum(k0: nat, k1: nat, k2: nat, l3: nat, h3: nat, k4: nat, k5: nat, l6: nat, h6: nat, k7: nat, k8: nat,
                l9: nat, h9: nat, k10: nat, k11: nat, k12: nat, k13: nat, k14: nat, k15: nat)
    ensures Sum5(k0 + 0x100 * k1 + 0x1_0000 * k2 + 0x100_0000 * l3,
                 h3 + 0x40 * k4 + 0x4000 * k5 + 0x40_0000 * l6,
                 h6 + 0x10 * k7 + 0x1000 * k8 + 0x10_0000 * l9,
                 h9 + 4 * k10 + 0x400 * k11 + 0x4_0000 * k12,
                 k13 + 0x100 * k14 + 0x1_0000 * k15)
            == Words4(Word(k0, k1, k2, l3 + 4 * h3), Word(k4, k5, l6 + 16 * h6, k7),
                      Word(k8, l9 + 64 * h9, k10, k11), Word(k12, k13, k14, k15))
  {
  }

  lemma TopBit(x: nat, top: u32)
    requires x < 0x100_0000 && (top == 0 || top == 0x100_0000)
    ensures U32(Or(x, top)) == x + top
  {
    hide Or, Pow2;
    Pow2Small();
    if top == 0 {
      OrDisjoint(x, 0, 24);
      assert Pow2(24) * 0 == 0;
    } else {
      OrDisjoint(x, 1, 24);
      assert Pow2(24) * 1 == 0x100_0000;
    }
    Exact(x + top);
  }

  lemma MaskSplit(x: nat, m: nat, n: nat, p: nat, xl: nat, xh: nat, ml: nat, mh: nat)
    requires p == Pow2(n) && p > 0 && ml < p && xl == x % p && xh == x / p && m == ml + p * mh
    ensures And(x, m) == And(xl, ml) + p * And(xh, mh)
  {
    AndSplit(x, m, n, p, xl, xh, ml, mh);
  }

  lemma ModMod(x: nat, d: nat, e: nat)
    requires d > 0 && e > 0
    ensures d * e > 0 && x % (d * e) % d == x % d
  {
    DivModBase(x, d, e);
    var l := x % d;
    DivModUnique(l + d * (x / d % e), d, x / d % e, l);
  }

  lemma MaskR1(x: nat)
    ensures And(x, 0x3ff_ff03) == x % 4 + 0x100 * (x / 0x100 % 0x4_0000)
  {
    hide And;
    Pow2Small();
    MaskSplit(x, 0x3ff_ff03, 8, 0x100, x % 0x100, x / 0x100, 3, 0x3_ffff);
    AndOnes(x % 0x100, 2);
    AndOnes(x / 0x100, 18);
    Pow2Add(6, 12);
    ModMod(x, 4, 0x40);
  }

  lemma MaskR2(x: nat)
    ensures And(x, 0x3ff_c0ff) == x % 0x100 + 0x4000 * (x / 0x4000 % 0x1000)
  {
    hide And;
    Pow2Small();
    MaskSplit(x, 0x3ff_c0ff, 14, 0x4000, x % 0x4000, x / 0x4000, 0xff, 0xfff);
    AndOnes(x % 0x4000, 8);
    AndOnes(x / 0x4000, 12);
    ModMod(x, 0x100, 0x40);
  }

  lemma MaskR3(x: nat)
    ensures And(x, 0x3f0_3fff) == x % 0x4000 + 0x10_0000 * (x / 0x10_0000 % 0x40)
  {
    hide And;
    Pow2Small();
    MaskSplit(x, 0x3f0_3fff, 20, 0x10_0000, x % 0x10_0000, x / 0x10_0000, 0x3fff, 0x3f);
    AndOnes(x % 0x10_0000, 14);
    AndOnes(x / 0x10_0000, 6);
    ModMod(x, 0x4000, 0x40);
  }

  lemma MaskR4(x: nat)
    ensures And(x, 0xf_ffff) == x % 0x10_0000
  {
    Pow2Small();
    AndOnes(x, 20);
  }

  predicate ClampedR(r: Limbs) { r.a0 < 0x400_0000 && r.a1 <= 0x3ff_ff03 && r.a2 <= 0x3ff_c0ff && r.a3 <= 0x3f0_3fff
                                && r.a4 <= 0xf_ffff }

  lemma KeyLimb0(k: seq<byte>)
    requires |k| == 16
    ensures And(Unpack32(k, 0), 0x3ff_ffff) == At(k, 0) + 0x100 * At(k, 1) + 0x1_0000 * At(k, 2)
                                               + 0x100_0000 * (At(k, 3) % 4)
  {
    hide And;
    LimbShift0(At(k, 0), At(k, 1), At(k, 2), At(k, 3));
    Mask26Is(Word(At(k, 0), At(k, 1), At(k, 2), At(k, 3)));
  }

  lemma KeyLimb1(k: seq<byte>)
    requires |k| == 16
    ensures And(Unpack32(k, 3) / 4, 0x3ff_ff03) == At(k, 3) / 4 % 4
                                                   + 0x100 * (At(k, 4) / 4 + 0x40 * At(k, 5) + 0x4000 * (At(k, 6) % 16))
  {
    hide And;
    LimbShift3(At(k, 3), At(k, 4), At(k, 5), At(k, 6));
    MaskR1(Word(At(k, 3), At(k, 4), At(k, 5), At(k, 6)) / 4);
  }

  lemma KeyLimb2(k: seq<byte>)
    requires |k| == 16
    ensures And(Unpack32(k, 6) / 16, 0x3ff_c0ff) == At(k, 6) / 16 + 0x10 * (At(k, 7) % 16)
                                                    + 0x4000 * (At(k, 8) / 4 + 0x40 * (At(k, 9) % 64))
  {
    hide And;
    LimbShift6(At(k, 6), At(k, 7), At(k, 8), At(k, 9));
    MaskR2(Word(At(k, 6), At(k, 7), At(k, 8), At(k, 9)) / 16);
  }

  lemma KeyLimb3(k: seq<byte>)
    requires |k| == 16
    ensures And(Unpack32(k, 9) / 64, 0x3f0_3fff) == At(k, 9) / 64 + 4 * At(k, 10) + 0x400 * (At(k, 11) % 16)
                                                    + 0x10_0000 * (At(k, 12) / 4)
  {
    hide And;
    LimbShift9(At(k, 9), At(k, 10), At(k, 11), At(k, 12));
    MaskR3(Word(At(k, 9), At(k, 10), At(k, 11), At(k, 12)) / 64);
  }

  lemma KeyLimb4(k: seq<byte>)
    requires |k| == 16
    ensures And(Unpack32(k, 12) / 256, 0x00f_ffff) == At(k, 13) + 0x100 * At(k, 14) + 0x1_0000 * (At(k, 15) % 16)
  {
    hide And;
    LimbShift12(At(k, 12), At(k, 13), At(k, 14), At(k, 15));
    MaskR4(Word(At(k, 12), At(k, 13), At(k, 14), At(k, 15)) / 256);
  }

  lemma LoadRLimbs(k: seq<byte>)
    requires |k| == 16
    ensures var r := LoadR(k);
            && r.a0 == At(k, 0) + 0x100 * At(k, 1) + 0x1_0000 * At(k, 2) + 0x100_0000 * (At(k, 3) % 4)
            && r.a1 == At(k, 3) / 4 % 4 + 0x100 * (At(k, 4) / 4 + 0x40 * At(k, 5) + 0x4000 * (At(k, 6) % 16))
            && r.a2 == At(k, 6) / 16 + 0x10 * (At(k, 7) % 16) + 0x4000 * (At(k, 8) / 4 + 0x40 * (At(k, 9) % 64))
            && r.a3 == At(k, 9) / 64 + 4 * At(k, 10) + 0x400 * (At(k, 11) % 16) + 0x10_0000 * (At(k, 12) / 4)
            && r.a4 == At(k, 13) + 0x100 * At(k, 14) + 0x1_0000 * (At(k, 15) % 16)
            && ClampedR(r)
  {
    hide And, Unpack32, At;
    KeyLimb0(k);
    KeyLimb1(k);
    KeyLimb2(k);
    KeyLimb3(k);
    KeyLimb4(k);
  }

  lemma NibbleSplit(x: nat)
    ensures x % 16 == x % 4 + 4 * (x / 4 % 4)
  {
    DivModBase(x, 4, 4);
  }

  /** The five masks of lines 46-50 are the clamping of RFC 8439. */
  lemma LoadRValue(k: seq<byte>)
    requires |k| == 16
    ensures Value(LoadR(k)) == Le(Clamp(k)) && ClampedR(LoadR(k))
  {
    hide Le, LoadR, Word, Words4;
    LoadRLimbs(k);
    var c := Clamp(k);
    Le16(c);
    NibbleSplit(At(k, 3));
    LimbSum(At(k, 0), At(k, 1), At(k, 2), At(k, 3) % 4, At(k, 3) / 4 % 4, At(c, 4), At(k, 5), At(k, 6) % 16,
            At(k, 6) / 16,
            At(c, 7), At(c, 8), At(k, 9) % 64, At(k, 9) / 64, At(k, 10), At(c, 11), At(c, 12), At(k, 13), At(k, 14),
              At(c, 15));
  }

  // ----- one block: h = (h + m) * r (lines 62-97)

  /** The row products of lines 84-88 as integers, before any word is involved. */
  datatype Rows = Rows(d0: int, d1: int, d2: int, d3: int, d4: int)

  function TrueRows(h: Limbs, r: Limbs): Rows
  {
    var h0: int, h1: int, h2: int, h3: int, h4: int := h.a0, h.a1, h.a2, h.a3, h.a4;
    var r0: int, r1: int, r2: int, r3: int, r4: int := r.a0, r.a1, r.a2, r.a3, r.a4;
    var s1, s2, s3, s4 := r1 * 5, r2 * 5, r3 * 5, r4 * 5;
    Rows(h0 * r0 + h1 * s4 + h2 * s3 + h3 * s2 + h4 * s1,
         h0 * r1 + h1 * r0 + h2 * s4 + h3 * s3 + h4 * s2,
         h0 * r2 + h1 * r1 + h2 * r0 + h3 * s4 + h4 * s3,
         h0 * r3 + h1 * r2 + h2 * r1 + h3 * r0 + h4 * s4,
         h0 * r4 + h1 * r3 + h2 * r2 + h3 * r1 + h4 * r0)
  }

  /** The quotient by which the rows differ from the full product: every limb above bit 130 folds back times five. */
  function Folded(h: Limbs, r: Limbs): int
  {
    var h0: int, h1: int, h2: int, h3: int, h4: int := h.a0, h.a1, h.a2, h.a3, h.a4;
    var r0: int, r1: int, r2: int, r3: int, r4: int := r.a0, r.a1, r.a2, r.a3, r.a4;
    Sum5(h1 * r4 + h2 * r3 + h3 * r2 + h4 * r1, h2 * r4 + h3 * r3 + h4 * r2, h3 * r4 + h4 * r3, h4 * r4, 0)
  }

  lemma ScaleLimbs(x: int, r: Limbs)
    ensures x * Value(r) == Sum5(x * r.a0, x * r.a1, x * r.a2, x * r.a3, x * r.a4)
  {
  }

  lemma TimesFive(x: int, r: int)
    ensures x * (r * 5) == 5 * (x * r)
  {
  }

  /** Products of two limbs, so that the remaining identity is linear. */
  lemma RowsFold(h: Limbs, r: Limbs)
    ensures var d := TrueRows(h, r);
            Value(h) * Value(r) == Sum5(d.d0, d.d1, d.d2, d.d3, d.d4) + P * Folded(h, r)
  {
    var v := Value(r);
    ScaleLimbs(h.a0, r);
    ScaleLimbs(h.a1, r);
    ScaleLimbs(h.a2, r);
    ScaleLimbs(h.a3, r);
    ScaleLimbs(h.a4, r);
    ScaleValue(h, v);
    TimesFive(h.a1, r.a4);
    TimesFive(h.a2, r.a3); TimesFive(h.a2, r.a4);
    TimesFive(h.a3, r.a2); TimesFive(h.a3, r.a3); TimesFive(h.a3, r.a4);
    TimesFive(h.a4, r.a1); TimesFive(h.a4, r.a2); TimesFive(h.a4, r.a3); TimesFive(h.a4, r.a4);
  }

  lemma ScaleValue(h: Limbs, v: int)
    ensures Value(h) * v == Sum5(h.a0 * v, h.a1 * v, h.a2 * v, h.a3 * v, h.a4 * v)
  {
  }

  lemma MulLe(a: int, b: int, x: int, y: int)
    requires 0 <= a <= x && 0 <= b <= y
    ensures 0 <= a * b <= x * y
  {
    assert a * b <= x * b <= x * y;
  }

  predicate Loaded(h: Limbs)
  {
    h.a0 < 0x800_0000 && h.a1 < 0x800_0040 && h.a2 < 0x800_0000 && h.a3 < 0x800_0000 && h.a4 < 0x600_0000
  }

  lemma RowBound(h: Limbs, c0: int, c1: int, c2: int, c3: int, c4: int, m0: int, m1: int, m2: int, m3: int, m4: int)
    requires Loaded(h)
    requires 0 <= c0 <= m0 && 0 <= c1 <= m1 && 0 <= c2 <= m2 && 0 <= c3 <= m3 && 0 <= c4 <= m4
    ensures 0 <= h.a0 * c0 + h.a1 * c1 + h.a2 * c2 + h.a3 * c3 + h.a4 * c4
              <= 0x800_0000 * (m0 + m2 + m3) + 0x800_0040 * m1 + 0x600_0000 * m4
  {
    MulLe(h.a0, c0, 0x800_0000, m0);
    MulLe(h.a1, c1, 0x800_0040, m1);
    MulLe(h.a2, c2, 0x800_0000, m2);
    MulLe(h.a3, c3, 0x800_0000, m3);
    MulLe(h.a4, c4, 0x600_0000, m4);
  }

  /** No row product overflows 64 bits, and every carry fits in 32 bits. */
  lemma RowBounds(h: Limbs, r: Limbs)
    requires Loaded(h) && ClampedR(r)
    ensures RowsFit(TrueRows(h, r))
  {
    var s1, s2, s3, s4 := r.a1 * 5, r.a2 * 5, r.a3 * 5, r.a4 * 5;
    var q1, q2, q3, q4 := 0x13ff_fb0f, 0x13fe_c4fb, 0x13b1_3ffb, 0x4f_fffb;
    RowBound(h, r.a0, s4, s3, s2, s1, 0x400_0000, q4, q3, q2, q1);
    RowBound(h, r.a1, r.a0, s4, s3, s2, 0x400_0000, 0x400_0000, q4, q3, q2);
    RowBound(h, r.a2, r.a1, r.a0, s4, s3, 0x400_0000, 0x400_0000, 0x400_0000, q4, q3);
    RowBound(h, r.a3, r.a2, r.a1, r.a0, s4, 0x400_0000, 0x400_0000, 0x400_0000, 0x400_0000, q4);
    RowBound(h, r.a4, r.a3, r.a2, r.a1, r.a0, 0xf_ffff, 0x3f0_3fff, 0x400_0000, 0x400_0000, 0x400_0000);
  }

  /** Lines 62-81: the block is added limb by limb, without a carry. */
  function AddLimbs(h: Limbs, m: Limbs): Limbs
  {
    Limbs(U32(h.a0 + m.a0), U32(h.a1 + m.a1), U32(h.a2 + m.a2), U32(h.a3 + m.a3), U32(h.a4 + m.a4))
  }

  /** One link of the carry chain of lines 91-95: the 32-bit carry out of a row, and the limb it leaves. */
  function CarryOut(d: int, c: int): u32 { U32(U64(d + c) / 0x400_0000) }

  function LimbOut(d: int, c: int): u32 { U32(U64(d + c)) % 0x400_0000 }

  /** Lines 90-97, on the 64-bit row products. */
  function CarryRows(d: Rows): Limbs
  {
    var c0 := CarryOut(d.d0, 0);
    var c1 := CarryOut(d.d1, c0);
    var c2 := CarryOut(d.d2, c1);
    var c3 := CarryOut(d.d3, c2);
    var c4 := CarryOut(d.d4, c3);
    var g0 := U32(LimbOut(d.d0, 0) + U32(c4 * 5));
    Limbs(g0 % 0x400_0000, U32(LimbOut(d.d1, c0) + g0 / 0x400_0000), LimbOut(d.d2, c1), LimbOut(d.d3, c2),
          LimbOut(d.d4, c3))
  }

  /** Lines 84-88: the row products in 64-bit words, with the multiples of five in 32-bit words (lines 52-55). */
  function WordRows(h: Limbs, r: Limbs): Rows
  {
    var h0: int, h1: int, h2: int, h3: int, h4: int := h.a0, h.a1, h.a2, h.a3, h.a4;
    var r0: int, r1: int, r2: int, r3: int, r4: int := r.a0, r.a1, r.a2, r.a3, r.a4;
    var s1: int, s2: int, s3: int, s4: int := U32(r1 * 5), U32(r2 * 5), U32(r3 * 5), U32(r4 * 5);
    Rows(U64(h0 * r0 + h1 * s4 + h2 * s3 + h3 * s2 + h4 * s1),
         U64(h0 * r1 + h1 * r0 + h2 * s4 + h3 * s3 + h4 * s2),
         U64(h0 * r2 + h1 * r1 + h2 * r0 + h3 * s4 + h4 * s3),
         U64(h0 * r3 + h1 * r2 + h2 * r1 + h3 * r0 + h4 * s4),
         U64(h0 * r4 + h1 * r3 + h2 * r2 + h3 * r1 + h4 * r0))
  }

  lemma WordRowsExact(h: Limbs, r: Limbs)
    requires Loaded(h) && ClampedR(r)
    ensures WordRows(h, r) == TrueRows(h, r)
  {
    hide U64, U32;
    Fits32(r.a1 * 5);
    Fits32(r.a2 * 5);
    Fits32(r.a3 * 5);
    Fits32(r.a4 * 5);
    RowBounds(h, r);
    var d := TrueRows(h, r);
    Fits64(d.d0);
    Fits64(d.d1);
    Fits64(d.d2);
    Fits64(d.d3);
    Fits64(d.d4);
  }

  lemma Fits64(x: int)
    requires 0 <= x < 0x1_0000_0000_0000_0000
    ensures U64(x) == x
  {
  }

  lemma Low26Of32(x: nat)
    ensures U32(x) % 0x400_0000 == x % 0x400_0000
  {
    ModMod(x, 0x400_0000, 64);
  }

  predicate RowsFit(d: Rows)
  {
    && 0 <= d.d0 < 0x1f0_0000_0000_0000 && 0 <= d.d1 < 0x1f0_0000_0000_0000
    && 0 <= d.d2 < 0x1f0_0000_0000_0000 && 0 <= d.d3 < 0x1f0_0000_0000_0000
    && 0 <= d.d4 < 0x79_0000_0000_0000
  }

  /** The carries of the chain, as integers: no word overflows. */
  lemma CarryRowsExact(d: Rows) returns (e1: nat, e2: nat, e3: nat, e4: nat, g0: nat)
    requires RowsFit(d)
    ensures e1 == d.d1 + d.d0 / 0x400_0000 && e2 == d.d2 + e1 / 0x400_0000
    ensures e3 == d.d3 + e2 / 0x400_0000 && e4 == d.d4 + e3 / 0x400_0000
    ensures g0 == d.d0 % 0x400_0000 + e4 / 0x400_0000 * 5 && g0 / 0x400_0000 < 64
    ensures CarryRows(d) == Limbs(g0 % 0x400_0000, e1 % 0x400_0000 + g0 / 0x400_0000, e2 % 0x400_0000, e3 % 0x400_0000,
                                  e4 % 0x400_0000)
  {
    hide U32, CarryOut, LimbOut;
    var c0 := RowCarry(d.d0, 0);
    var c1 := RowCarry(d.d1, c0);
    var c2 := RowCarry(d.d2, c1);
    var c3 := RowCarry(d.d3, c2);
    var c4 := RowCarry(d.d4, c3);
    e1, e2, e3, e4 := d.d1 + c0, d.d2 + c1, d.d3 + c2, d.d4 + c3;
    g0 := LastCarry(d.d0, e1, c4);
  }

  lemma LastCarry(d0: nat, e1: nat, c4: nat) returns (g0: nat)
    requires c4 < 0x1e80_0000
    ensures g0 == d0 % 0x400_0000 + c4 * 5 && g0 / 0x400_0000 < 64
    ensures U32(c4 * 5) == c4 * 5 && U32(g0) == g0
    ensures U32(e1 % 0x400_0000 + g0 / 0x400_0000) == e1 % 0x400_0000 + g0 / 0x400_0000
  {
    g0 := d0 % 0x400_0000 + c4 * 5;
  }

  /** The carry chain changes the value by a multiple of `P` only and leaves the limbs carried. */
  lemma CarryRowsValue(d: Rows)
    requires RowsFit(d)
    ensures Carried(CarryRows(d))
    ensures Value(CarryRows(d)) % P == Sum5(d.d0, d.d1, d.d2, d.d3, d.d4) % P
  {
    hide CarryRows;
    var e1, e2, e3, e4, g0 := CarryRowsExact(d);
    ChainSum(d.d0, e1, e2, e3, e4, d.d0 / 0x400_0000, e1 / 0x400_0000, e2 / 0x400_0000, e3 / 0x400_0000,
             e4 / 0x400_0000, g0);
    ModShift(Value(CarryRows(d)), e4 / 0x400_0000);
  }

  lemma Fits32(x: int)
    requires 0 <= x < 0x1_0000_0000
    ensures U32(x) == x
  {
  }

  /** No word overflows in a link of the carry chain. */
  lemma RowCarry(d: int, c: int) returns (c': int)
    requires 0 <= d < 0x1f0_0000_0000_0000 && 0 <= c < 0x8000_0000
    ensures c' == CarryOut(d, c) == (d + c) / 0x400_0000 && LimbOut(d, c) == (d + c) % 0x400_0000
    ensures 0 <= c' < 0x8000_0000
    ensures d < 0x79_0000_0000_0000 ==> c' < 0x1e80_0000
  {
    c' := (d + c) / 0x400_0000;
    Low26Of32(d + c);
  }

  lemma ChainSum(d0: nat, e1: nat, e2: nat, e3: nat, e4: nat, c0: nat, c1: nat, c2: nat, c3: nat, c4: nat, g0: nat)
    requires c0 == d0 / 0x400_0000 && c1 == e1 / 0x400_0000 && c2 == e2 / 0x400_0000 && c3 == e3 / 0x400_0000
             && c4 == e4 / 0x400_0000 && g0 == d0 % 0x400_0000 + c4 * 5
    ensures Sum5(d0, e1 - c0, e2 - c1, e3 - c2, e4 - c3)
            == Sum5(g0 % 0x400_0000, e1 % 0x400_0000 + g0 / 0x400_0000, e2 % 0x400_0000, e3 % 0x400_0000,
                    e4 % 0x400_0000) + P * c4
  {
  }

  lemma ModShift(x: int, k: int)
    ensures (x + P * k) % P == x % P
  {
    ModPlus(x, k, P);
  }

  /** Lines 62-97: one block. */
  function BlockStep(h: Limbs, m: seq<byte>, top: u32, r: Limbs): Limbs
    requires |m| >= 16
  {
    CarryRows(WordRows(AddLimbs(h, LoadBlock(m, top)), r))
  }

  lemma AddLimbsValue(h: Limbs, m: Limbs)
    requires Carried(h)
    requires m.a0 < 0x400_0000 && m.a1 < 0x400_0000 && m.a2 < 0x400_0000 && m.a3 < 0x400_0000 && m.a4 < 0x200_0000
    ensures Loaded(AddLimbs(h, m)) && Value(AddLimbs(h, m)) == Value(h) + Value(m)
  {
    hide U32;
    Fits32(h.a0 + m.a0);
    Fits32(h.a1 + m.a1);
    Fits32(h.a2 + m.a2);
    Fits32(h.a3 + m.a3);
    Fits32(h.a4 + m.a4);
  }

  /** One block multiplies and adds modulo `P`, and keeps the accumulator carried. */
  lemma BlockStepValue(h: Limbs, m: seq<byte>, top: u32, r: Limbs, a: nat, b: nat)
    requires Carried(h) && ClampedR(r) && |m| == 16 && (top == 0 || top == 0x100_0000)
    requires Value(h) % P == a % P
    requires b == Le(m) + 0x1_0000_0000_0000_0000_0000_0000_0000_0000 * (top / 0x100_0000)
    ensures Carried(BlockStep(h, m, top, r))
    ensures Value(BlockStep(h, m, top, r)) % P == (a + b) * Value(r) % P
  {
    hide *;
    LoadBlockLimbs(m, top);
    LoadBlockValue(m, top);
    var g := AddLimbs(h, LoadBlock(m, top));
    AddLimbsValue(h, LoadBlock(m, top));
    WordRowsExact(g, r);
    RowBounds(g, r);
    RowsFold(g, r);
    var d := TrueRows(g, r);
    CarryRowsValue(d);
    BlockStepIs(h, m, top, r);
    ModShift(Sum5(d.d0, d.d1, d.d2, d.d3, d.d4), Folded(g, r));
    PIsPositive();
    ModAdd(Value(h), a, b, b, P);
    ModMul(Value(h) + b, a + b, Value(r), Value(r), P);
  }

  lemma PIsPositive()
    ensures P > 0
  {
  }

  lemma BlockStepIs(h: Limbs, m: seq<byte>, top: u32, r: Limbs)
    requires |m| == 16
    ensures BlockStep(h, m, top, r) == CarryRows(WordRows(AddLimbs(h, LoadBlock(m, top)), r))
  {
  }

  // ----- the final reduction (lines 104-131)

  /** Lines 105-110. */
  function FullCarry(h: Limbs): Limbs
  {
    var g2 := U32(h.a2 + h.a1 / 0x400_0000);
    var g3 := U32(h.a3 + g2 / 0x400_0000);
    var g4 := U32(h.a4 + g3 / 0x400_0000);
    var g0 := U32(h.a0 + U32(g4 / 0x400_0000 * 5));
    Limbs(g0 % 0x400_0000, U32(h.a1 % 0x400_0000 + g0 / 0x400_0000), g2 % 0x400_0000, g3 % 0x400_0000, g4 % 0x400_0000)
  }

  lemma FullCarryExact(h: Limbs) returns (g2: nat, g3: nat, g4: nat, g0: nat)
    requires Carried(h)
    ensures g2 == h.a2 + h.a1 / 0x400_0000 && g3 == h.a3 + g2 / 0x400_0000 && g4 == h.a4 + g3 / 0x400_0000
    ensures g0 == h.a0 + g4 / 0x400_0000 * 5
    ensures FullCarry(h) == Limbs(g0 % 0x400_0000, h.a1 % 0x400_0000 + g0 / 0x400_0000, g2 % 0x400_0000,
                                  g3 % 0x400_0000, g4 % 0x400_0000)
  {
    hide U32;
    g2 := h.a2 + h.a1 / 0x400_0000;
    Fits32(g2);
    g3 := h.a3 + g2 / 0x400_0000;
    Fits32(g3);
    g4 := h.a4 + g3 / 0x400_0000;
    Fits32(g4);
    Fits32(g4 / 0x400_0000 * 5);
    g0 := h.a0 + g4 / 0x400_0000 * 5;
    Fits32(g0);
    Fits32(h.a1 % 0x400_0000 + g0 / 0x400_0000);
  }

  /** After the full carry every limb, limb 1 included, is below 2^26. */
  lemma FullCarryValue(h: Limbs)
    requires Carried(h)
    ensures Reduced(FullCarry(h)) && Value(FullCarry(h)) % P == Value(h) % P
  {
    hide FullCarry;
    var g2, g3, g4, g0 := FullCarryExact(h);
    if h.a1 < 0x400_0000 {
      assert g0 == h.a0;
    } else {
      assert h.a1 % 0x400_0000 < 64 && g0 / 0x400_0000 <= 1;
    }
    var g := FullCarry(h);
    FullCarrySum(h.a0, h.a1, h.a2, h.a3, h.a4, g0, g2, g3, g4);
    ModShift(Value(g), g4 / 0x400_0000);
  }

  lemma FullCarrySum(a0: nat, a1: nat, a2: nat, a3: nat, a4: nat, g0: nat, g2: nat, g3: nat, g4: nat)
    requires g2 == a2 + a1 / 0x400_0000 && g3 == a3 + g2 / 0x400_0000 && g4 == a4 + g3 / 0x400_0000
    requires g0 == a0 + g4 / 0x400_0000 * 5
    ensures Sum5(g0 % 0x400_0000, a1 % 0x400_0000 + g0 / 0x400_0000, g2 % 0x400_0000, g3 % 0x400_0000, g4 % 0x400_0000)
            == Sum5(a0, a1, a2, a3, a4) - P * (g4 / 0x400_0000)
  {
  }

  /** Lines 113-117: h + 5 - 2^130, the top limb wrapping around when that is negative. */
  function MinusP(h: Limbs): Limbs
  {
    var r0 := U32(h.a0 + 5);
    var r1 := U32(h.a1 + r0 / 0x400_0000);
    var r2 := U32(h.a2 + r1 / 0x400_0000);
    var r3 := U32(h.a3 + r2 / 0x400_0000);
    Limbs(r0 % 0x400_0000, r1 % 0x400_0000, r2 % 0x400_0000, r3 % 0x400_0000, U32(h.a4 + r3 / 0x400_0000 - 0x400_0000))
  }

  function Not32(x: u32): u32 { 0xffff_ffff - x }

  function Choose(mask: u32, h: u32, r: u32): u32
  {
    OrAnd32(mask, h, r);
    Or(And(h, Not32(mask)), And(r, mask))
  }

  lemma OrAnd32(mask: u32, h: u32, r: u32)
    ensures Or(And(h, Not32(mask)), And(r, mask)) < 0x1_0000_0000
  {
  }

  /** Lines 120-131. */
  function Select(h: Limbs, r: Limbs): Limbs
  {
    var mask := U32(r.a4 / 0x8000_0000 - 1);
    Limbs(Choose(mask, h.a0, r.a0), Choose(mask, h.a1, r.a1), Choose(mask, h.a2, r.a2), Choose(mask, h.a3, r.a3),
          Choose(mask, h.a4, r.a4))
  }

  lemma MinusPExact(h: Limbs) returns (r0: nat, r1: nat, r2: nat, r3: nat)
    requires Reduced(h)
    ensures r0 == h.a0 + 5 && r1 == h.a1 + r0 / 0x400_0000 && r2 == h.a2 + r1 / 0x400_0000
            && r3 == h.a3 + r2 / 0x400_0000
    ensures MinusP(h) == Limbs(r0 % 0x400_0000, r1 % 0x400_0000, r2 % 0x400_0000, r3 % 0x400_0000,
                               U32(h.a4 + r3 / 0x400_0000 - 0x400_0000))
    ensures r3 / 0x400_0000 <= 1
  {
    hide U32;
    r0 := h.a0 + 5;
    Fits32(r0);
    r1 := h.a1 + r0 / 0x400_0000;
    Fits32(r1);
    r2 := h.a2 + r1 / 0x400_0000;
    Fits32(r2);
    r3 := h.a3 + r2 / 0x400_0000;
    Fits32(r3);
  }

  lemma MinusPSum(a0: nat, a1: nat, a2: nat, a3: nat, a4: nat, r0: nat, r1: nat, r2: nat, r3: nat)
    requires r0 == a0 + 5 && r1 == a1 + r0 / 0x400_0000 && r2 == a2 + r1 / 0x400_0000 && r3 == a3 + r2 / 0x400_0000
    ensures Sum5(r0 % 0x400_0000, r1 % 0x400_0000, r2 % 0x400_0000, r3 % 0x400_0000, a4 + r3 / 0x400_0000 - 0x400_0000)
            == Sum5(a0, a1, a2, a3, a4) - P
  {
  }

  lemma TopLimbSign(a0: int, a1: int, a2: int, a3: int, t: int)
    requires 0 <= a0 < 0x400_0000 && 0 <= a1 < 0x400_0000 && 0 <= a2 < 0x400_0000 && 0 <= a3 < 0x400_0000
    ensures t < 0 <==> Sum5(a0, a1, a2, a3, t) < 0
  {
  }

  lemma MinusPValue(h: Limbs)
    requires Reduced(h)
    ensures var r := MinusP(h);
            if Value(h) < P then r.a4 >= 0x8000_0000 else Reduced(r) && r.a4 < 0x8000_0000 && Value(r) == Value(h) - P
  {
    hide MinusP, Sum5;
    var r0, r1, r2, r3 := MinusPExact(h);
    MinusPSum(h.a0, h.a1, h.a2, h.a3, h.a4, r0, r1, r2, r3);
    TopLimbSign(r0 % 0x400_0000, r1 % 0x400_0000, r2 % 0x400_0000, r3 % 0x400_0000,
                h.a4 + r3 / 0x400_0000 - 0x400_0000);
  }

  lemma ChooseOne(h: u32, r: u32)
    ensures Choose(0, h, r) == h && Choose(0xffff_ffff, h, r) == r
  {
    hide And, Or;
    KeepAll(h);
    KeepAll(r);
    OrZero(h);
    OrZero(r);
  }

  lemma KeepAll(x: u32)
    ensures And(x, 0xffff_ffff) == x && And(x, 0) == 0
  {
    hide Pow2;
    Pow2At32();
    AndOnes(x, 32);
  }

  lemma OrZero(x: nat)
    ensures Or(x, 0) == x && Or(0, x) == x
  {
  }

  lemma ReducedBound(h: Limbs)
    requires Reduced(h)
    ensures Value(h) < P + 5
  {
  }

  /** The masked select yields the canonical residue. */
  lemma SelectValue(h: Limbs)
    requires Reduced(h)
    ensures Reduced(Select(h, MinusP(h))) && Value(Select(h, MinusP(h))) == Value(h) % P
  {
    hide MinusP, Choose, Sum5;
    MinusPValue(h);
    var r := MinusP(h);
    ChooseOne(h.a0, r.a0);
    ChooseOne(h.a1, r.a1);
    ChooseOne(h.a2, r.a2);
    ChooseOne(h.a3, r.a3);
    ChooseOne(h.a4, r.a4);
    if Value(h) < P {
      ModSmall(Value(h), P);
    } else {
      ReducedBound(h);
      ModShift(Value(h), -1);
      ModSmall(Value(r), P);
    }
  }

  // ----- packing and adding the pad (lines 133-148)

  datatype Quad = Quad(w0: u32, w1: u32, w2: u32, w3: u32)

  function QuadValue(w: Quad): nat { Words4(w.w0, w.w1, w.w2, w.w3) }

  /** Lines 134-137. */
  function Pack(h: Limbs): Quad
    requires Reduced(h)
  {
    Joined(h.a0, h.a1, 26, 0x400_0000, 0x40);
    Joined(h.a1 / 0x40, h.a2, 20, 0x10_0000, 0x1000);
    Joined(h.a2 / 0x1000, h.a3, 14, 0x4000, 0x4_0000);
    Joined(h.a3 / 0x4_0000, h.a4, 8, 0x100, 0x100_0000);
    Quad(Or(h.a0, U32(h.a1 * 0x400_0000)), Or(h.a1 / 0x40, U32(h.a2 * 0x10_0000)),
         Or(h.a2 / 0x1000, U32(h.a3 * 0x4000)),
         Or(h.a3 / 0x4_0000, U32(h.a4 * 0x100)))
  }

  /** Two limbs joined in a word: the or is exact because the limbs are below 2^26. */
  lemma Joined(lo: nat, hi: nat, n: nat, p: nat, d: nat)
    requires (n == 26 && p == 0x400_0000 && d == 0x40) || (n == 20 && p == 0x10_0000 && d == 0x1000)
          || (n == 14 && p == 0x4000 && d == 0x4_0000) || (n == 8 && p == 0x100 && d == 0x100_0000)
    requires lo < p
    ensures Or(lo, U32(hi * p)) == lo + p * (hi % d) < 0x1_0000_0000
  {
    Pow2Small();
    assert p * d == 0x1_0000_0000;
    ShiftMod(hi, p, d);
    OrDisjoint(lo, hi % d, n);
    assert p * (hi % d) <= p * (d - 1);
  }

  lemma ShiftMod(x: nat, p: nat, d: nat)
    requires p > 0 && d > 0
    ensures p * d > 0 && x * p % (p * d) == p * (x % d)
  {
    var q, r := x / d, x % d;
    assert x == d * q + r;
    assert x * p == q * (p * d)
                    + p * r by { assert (d * q) * p == q * (p * d); assert (d * q + r) * p == (d * q) * p + p * r; }
    assert 0 <= p * r && p * r <= p * (d - 1) == p * d - p;
    DivModUnique(x * p, p * d, q, p * r);
  }

  lemma PackValue(h: Limbs)
    requires Reduced(h)
    ensures QuadValue(Pack(h)) == Value(h) % 0x1_0000_0000_0000_0000_0000_0000_0000_0000
  {
    hide Or, U32;
    Joined(h.a0, h.a1, 26, 0x400_0000, 0x40);
    Joined(h.a1 / 0x40, h.a2, 20, 0x10_0000, 0x1000);
    Joined(h.a2 / 0x1000, h.a3, 14, 0x4000, 0x4_0000);
    Joined(h.a3 / 0x4_0000, h.a4, 8, 0x100, 0x100_0000);
    PackSum(h.a0, h.a1, h.a2, h.a3, h.a4);
    QuadBound(Pack(h));
    DivModUnique(Value(h), 0x1_0000_0000_0000_0000_0000_0000_0000_0000, h.a4 / 0x100_0000, QuadValue(Pack(h)));
  }

  lemma PackSum(a0: nat, a1: nat, a2: nat, a3: nat, a4: nat)
    ensures Sum5(a0, a1, a2, a3, a4)
            == Words4(a0 + 0x400_0000 * (a1 % 0x40), a1 / 0x40 + 0x10_0000 * (a2 % 0x1000),
                      a2 / 0x1000 + 0x4000 * (a3 % 0x4_0000), a3 / 0x4_0000 + 0x100 * (a4 % 0x100_0000))
               + 0x1_0000_0000_0000_0000_0000_0000_0000_0000 * (a4 / 0x100_0000)
  {
  }

  lemma QuadBound(w: Quad)
    ensures QuadValue(w) < 0x1_0000_0000_0000_0000_0000_0000_0000_0000
  {
  }

  /** Lines 140-143. */
  function AddPad(w: Quad, s: Quad): Quad
  {
    var f0 := U64(w.w0 + s.w0);
    var f1 := U64(w.w1 + s.w1 + f0 / 0x1_0000_0000);
    var f2 := U64(w.w2 + s.w2 + f1 / 0x1_0000_0000);
    var f3 := U64(w.w3 + s.w3 + f2 / 0x1_0000_0000);
    Quad(U32(f0), U32(f1), U32(f2), U32(f3))
  }

  lemma PadSum(w0: int, w1: int, w2: int, w3: int, s0: int, s1: int, s2: int, s3: int, f0: int, f1: int, f2: int,
               f3: int)
    requires f0 == w0 + s0 && f1 == w1 + s1 + f0 / 0x1_0000_0000 && f2 == w2 + s2 + f1 / 0x1_0000_0000
    requires f3 == w3 + s3 + f2 / 0x1_0000_0000
    ensures Words4(w0, w1, w2, w3) + Words4(s0, s1, s2, s3)
            == Words4(f0 % 0x1_0000_0000, f1 % 0x1_0000_0000, f2 % 0x1_0000_0000, f3 % 0x1_0000_0000)
               + 0x1_0000_0000_0000_0000_0000_0000_0000_0000 * (f3 / 0x1_0000_0000)
  {
  }

  lemma AddPadValue(w: Quad, s: Quad)
    ensures QuadValue(AddPad(w, s)) == (QuadValue(w) + QuadValue(s)) % 0x1_0000_0000_0000_0000_0000_0000_0000_0000
  {
    hide U64, Words4;
    var f0: int := w.w0 as int + s.w0;
    Fits64(f0);
    var f1: int := w.w1 as int + s.w1 + f0 / 0x1_0000_0000;
    Fits64(f1);
    var f2: int := w.w2 as int + s.w2 + f1 / 0x1_0000_0000;
    Fits64(f2);
    var f3: int := w.w3 as int + s.w3 + f2 / 0x1_0000_0000;
    Fits64(f3);
    QuadBound(AddPad(w, s));
    PadSum(w.w0, w.w1, w.w2, w.w3, s.w0, s.w1, s.w2, s.w3, f0, f1, f2, f3);
    DivModUnique(QuadValue(w) + QuadValue(s), 0x1_0000_0000_0000_0000_0000_0000_0000_0000, f3 / 0x1_0000_0000,
                 QuadValue(AddPad(w, s)));
  }

  function LoadPad(k: seq<byte>): Quad
    requires |k| == 32
  {
    Quad(Unpack32(k, 16), Unpack32(k, 20), Unpack32(k, 24), Unpack32(k, 28))
  }

  lemma LoadPadValue(k: seq<byte>)
    requires |k| == 32
    ensures QuadValue(LoadPad(k)) == Le(k[16..])
  {
    Le16(k[16..]);
  }

  function QuadBytes(w: Quad): (s: seq<byte>)
    ensures |s| == 16
  {
    Pack32(w.w0) + Pack32(w.w1) + Pack32(w.w2) + Pack32(w.w3)
  }

  lemma QuadBytesValue(w: Quad)
    ensures QuadBytes(w) == ToLe(QuadValue(w), 16)
  {
    hide Pack32, ToLe;
    var v3: nat := w.w3;
    var v2 := w.w2 + 0x1_0000_0000 * v3;
    var v1 := w.w1 + 0x1_0000_0000 * v2;
    var v0 := w.w0 + 0x1_0000_0000 * v1;
    assert QuadValue(w) == v0;
    ToLe4Split(v0, 16);
    ToLe4Split(v1, 12);
    ToLe4Split(v2, 8);
    Pack32IsToLe(w.w0);
    Pack32IsToLe(w.w1);
    Pack32IsToLe(w.w2);
    Pack32IsToLe(w.w3);
  }

  /** Everything after the message loop (lines 104-148). */
  function Finish(h: Limbs, k: seq<byte>): seq<byte>
    requires |k| == 32 && Carried(h)
  {
    FullCarryValue(h);
    SelectValue(FullCarry(h));
    var g := FullCarry(h);
    QuadBytes(AddPad(Pack(Select(g, MinusP(g))), LoadPad(k)))
  }

  lemma FinishValue(h: Limbs, k: seq<byte>)
    requires |k| == 32 && Carried(h)
    ensures Finish(h, k) == ToLe((Value(h) % P + Le(k[16..])) % 0x1_0000_0000_0000_0000_0000_0000_0000_0000, 16)
  {
    hide *;
    PIsPositive();
    FullCarryValue(h);
    var g := FullCarry(h);
    SelectValue(g);
    var c := Select(g, MinusP(g));
    PackValue(c);
    LoadPadValue(k);
    AddPadValue(Pack(c), LoadPad(k));
    QuadBytesValue(AddPad(Pack(c), LoadPad(k)));
    PadMod(Value(c), QuadValue(LoadPad(k)));
    FinishIs(h, k);
  }

  lemma FinishIs(h: Limbs, k: seq<byte>)
    requires |k| == 32 && Carried(h)
    ensures var g := FullCarry(h);
            && Reduced(Select(g, MinusP(g)))
            && Finish(h, k) == QuadBytes(AddPad(Pack(Select(g, MinusP(g))), LoadPad(k)))
  {
    FullCarryValue(h);
    SelectValue(FullCarry(h));
  }

  lemma PadMod(v: nat, s: nat)
    ensures (v % 0x1_0000_0000_0000_0000_0000_0000_0000_0000 + s) % 0x1_0000_0000_0000_0000_0000_0000_0000_0000
            == (v + s) % 0x1_0000_0000_0000_0000_0000_0000_0000_0000
  {
    ModIdem(v, 0x1_0000_0000_0000_0000_0000_0000_0000_0000);
    ModAdd(v % 0x1_0000_0000_0000_0000_0000_0000_0000_0000, v, s, s, 0x1_0000_0000_0000_0000_0000_0000_0000_0000);
  }

  // ----- the function

  lemma BlockOf16(b: seq<byte>)
    requires |b| == 16
    ensures Block(b) == Le(b) + 0x1_0000_0000_0000_0000_0000_0000_0000_0000
  {
    assert Pow256(8) == 0x1_0000_0000_0000_0000;
    Pow256Add(8, 8);
  }

  /** The zero-padded last block with its one byte (lines 71-75) is the block value of the short message. */
  lemma ShortBlock(m: seq<byte>, mm: seq<byte>)
    requires |m| < 16 && |mm| == 16 && mm == m + [1] + Zeros(15 - |m|)
    ensures Le(mm) == Block(m)
  {
    var z := Zeros(15 - |m|);
    assert mm == m + ([1] + z);
    LeConcat(m, [1] + z);
    LeConcat([1], z);
    LeZeros(15 - |m|);
    assert Le([1]) == 1;
  }

  /** Lines 71-75: the last, short block in a buffer of sixteen bytes. */
  method PadBlock(m: seq<byte>) returns (mm: seq<byte>)
    requires |m| < 16
    ensures mm == m + [1] + Zeros(15 - |m|)
  {
    var space := new byte[16];
    for i := 0 to 16
      invariant space[..i] == Zeros(i)
    {
      space[i] := 0;
      ZerosSnoc(i);
    }
    for i := 0 to |m|
      invariant space[..i] == m[..i] && space[i..] == Zeros(16 - i)
    {
      ghost var z := space[i + 1..];
      space[i] := m[i];
      assert Zeros(16 - i)[1..] == z;
    }
    space[|m|] := 1;
    assert Zeros(16 - |m|)[1..] == Zeros(15 - |m|);
    mm := space[..];
  }

  /**
  The accumulator `h` stands for `a`, from which the blocks of `rest` lead to the same end as those of `msg`
  from zero.
  */
  ghost predicate Absorbed(h: Limbs, a: nat, rest: seq<byte>, msg: seq<byte>, r: Limbs)
  {
    && Carried(h) && ClampedR(r) && a < P && Value(h) % P == a
    && Accumulate(a, rest, Value(r)) == Accumulate(0, msg, Value(r))
  }

  lemma AbsorbedFirst(msg: seq<byte>, r: Limbs)
    requires ClampedR(r)
    ensures Absorbed(Limbs(0, 0, 0, 0, 0), 0, msg, msg, r)
  {
    hide Accumulate;
    ModSmall(0, P);
  }

  lemma AbsorbedLast(h: Limbs, a: nat, msg: seq<byte>, r: Limbs)
    requires Absorbed(h, a, [], msg, r)
    ensures Carried(h) && Value(h) % P == Accumulate(0, msg, Value(r))
  {
  }

  /** The step the loop takes is a step of the specification. */
  lemma AbsorbedStep(h: Limbs, a: nat, rest: seq<byte>, msg: seq<byte>, b: seq<byte>, top: u32, r: Limbs)
    returns (a': nat)
    requires Absorbed(h, a, rest, msg, r) && rest != []
    requires if |rest| >= 16 then b == rest[..16] && top == 0x100_0000
             else b == rest + [1] + Zeros(15 - |rest|) && top == 0
    ensures Absorbed(BlockStep(h, b, top, r), a', rest[if |rest| < 16 then |rest| else 16..], msg, r)
  {
    hide BlockStep, Value, Carried;
    var n := if |rest| < 16 then |rest| else 16;
    var v := Block(rest[..n]);
    if |rest| >= 16 {
      BlockOf16(b);
    } else {
      assert rest[..n] == rest;
      ShortBlock(rest, b);
    }
    ModSmall(a, P);
    BlockStepValue(h, b, top, r, a, v);
    a' := (a + v) * Value(r) % P;
    AccumulateStep(a, rest, n, v, Value(r));
  }

  lemma AccumulateStep(a: nat, rest: seq<byte>, n: nat, v: nat, r: nat)
    requires rest != [] && n == (if |rest| < 16 then |rest| else 16) && v == Block(rest[..n])
    ensures Accumulate(a, rest, r) == Accumulate((a + v) * r % P, rest[n..], r)
  {
  }

  /**
  Lines 57-101. The length is an unsigned 64-bit word that wraps below zero after a short last
  block; the signed comparison of line 60 ends the loop on that.
  */
  method Absorb(m: seq<byte>, r: Limbs) returns (h: Limbs)
    requires |m| < 0x8000_0000_0000_0000 && ClampedR(r)
    ensures Carried(h) && Value(h) % P == Accumulate(0, m, Value(r))
  {
    hide Absorbed, BlockStep, Carried, Value, Accumulate;
    h := Limbs(0, 0, 0, 0, 0);
    ghost var a, rest := 0, m;
    AbsorbedFirst(m, r);
    var pos, n: u64 := 0, |m|;
    while 0 < n < 0x8000_0000_0000_0000
      invariant Absorbed(h, a, rest, m, r)
      invariant if n < 0x8000_0000_0000_0000 then pos + n == |m| && rest == m[pos..] else rest == []
      decreases if n < 0x8000_0000_0000_0000 then n else 0
    {
      var b, top := [], 0x100_0000;
      if n >= 16 {
        b := m[pos..pos + 16];
      } else {
        b := PadBlock(m[pos..]);
        top := 0;
      }
      a := AbsorbedStep(h, a, rest, m, b, top, r);
      rest := rest[if |rest| < 16 then |rest| else 16..];
      h := BlockStep(h, b, top, r);
      pos := pos + 16;
      n := U64(n - 16);
    }
    AbsorbedLast(h, a, m, r);
  }

  lemma MacIs(h: Limbs, m: seq<byte>, k: seq<byte>)
    requires |k| == 32 && Carried(h) && Value(h) % P == Accumulate(0, m, Value(LoadR(k[..16])))
    ensures Finish(h, k) == Mac(m, k)
  {
    hide Finish, LoadR, Value, Accumulate, Clamp, Le, ToLe;
    LoadRValue(k[..16]);
    FinishValue(h, k);
  }

  /**
  Lines 34-151: the tag is that of RFC 8439. The key may overlap the output (the secret box calls
  it so), since every key byte is read before the first output byte is written.
  */
  method Onetimeauth(out: array<byte>, o: nat, inp: array<byte>, m: nat, n: nat, key: array<byte>, k: nat)
    requires o + 16 <= out.Length && m + n <= inp.Length && k + 32 <= key.Length
    requires n < 0x8000_0000_0000_0000
    modifies out
    ensures out[o..o + 16] == old(Mac(inp[m..m + n], key[k..k + 32]))
    ensures out[..o] == old(out[..o]) && out[o + 16..] == old(out[o + 16..])
  {
    hide LoadR, Finish, Mac, Value, Accumulate;
    var kk := key[k..k + 32];
    var r := LoadR(kk[..16]);
    LoadRValue(kk[..16]);
    var h := Absorb(inp[m..m + n], r);
    MacIs(h, inp[m..m + n], kk);
    var mac := Finish(h, kk);
    CopyBytes(out, o, mac);
  }
}
