/**
Machine words as natural numbers.

The C sources work on 8, 32 and 64-bit unsigned words. A word is modelled as the number it
denotes, every wrap-around is written out with `U32` and `U64`, shifts are multiplications and
divisions by a power of two, and the bitwise operators are defined here bit by bit.
*/
module Bits {

  type byte = x: int | 0 <= x < 256
  type u32 = x: int | 0 <= x < 0x1_0000_0000
  type u64 = x: int | 0 <= x < 0x1_0000_0000_0000_0000

  function U32(x: int): u32 { x % 0x1_0000_0000 }

  /** A number that fits is its own word. */
  lemma Exact(x: nat)
    requires x < 0x1_0000_0000
    ensures U32(x) == x
  {
  }

  function U64(x: int): u64 { x % 0x1_0000_0000_0000_0000 }

  /** 2 to the power `n`. */
  function Pow2(n: nat): (p: nat)
    ensures p >= 1
  {
    if n == 0 then 1 else 2 * Pow2(n - 1)
  }

  /** A shift to the left. */
  function Shl(x: nat, n: nat): nat { x * Pow2(n) }

  function And(x: nat, y: nat): (r: nat)
    ensures r <= x && r <= y
  {
    if x == 0 || y == 0 then 0
    else (if x % 2 == 1 && y % 2 == 1 then 1 else 0) + 2 * And(x / 2, y / 2)
  }

  function Or(x: nat, y: nat): (r: nat)
    ensures x <= r && y <= r && r <= x + y
    decreases x + y
  {
    if x == 0 then y else if y == 0 then x
    else (if x % 2 == 1 || y % 2 == 1 then 1 else 0) + 2 * Or(x / 2, y / 2)
  }

  function Xor(x: nat, y: nat): (r: nat)
    ensures r <= x + y
    decreases x + y
  {
    if x == 0 then y else if y == 0 then x
    else (if x % 2 == y % 2 then 0 else 1) + 2 * Xor(x / 2, y / 2)
  }

  lemma {:induction false} XorParts(x: nat, y: nat)
    ensures Xor(x, y) % 2 == (if x % 2 == y % 2 then 0 else 1)
    ensures Xor(x, y) / 2 == Xor(x / 2, y / 2)
  {
  }

  lemma {:induction false} XorComm(x: nat, y: nat)
    ensures Xor(x, y) == Xor(y, x)
    decreases x + y
  {
    if x != 0 && y != 0 { XorComm(x / 2, y / 2); }
  }

  lemma {:induction false} XorAssoc(x: nat, y: nat, z: nat)
    ensures Xor(Xor(x, y), z) == Xor(x, Xor(y, z))
    decreases x + y + z
  {
    if x != 0 && y != 0 && z != 0 {
      XorParts(x, y);
      XorParts(y, z);
      XorParts(Xor(x, y), z);
      XorParts(x, Xor(y, z));
      XorAssoc(x / 2, y / 2, z / 2);
    }
  }

  lemma {:induction false} XorSelf(x: nat)
    ensures Xor(x, x) == 0
  {
    if x != 0 { XorSelf(x / 2); }
  }

  /** Xor is its own inverse: what the linked lists of the cache and the masked swaps rely on. */
  lemma XorCancel(x: nat, y: nat)
    ensures Xor(x, Xor(x, y)) == y
    ensures Xor(Xor(x, y), y) == x
    ensures Xor(Xor(x, y), x) == y
  {
    XorAssoc(x, x, y);
    XorSelf(x);
    XorAssoc(x, y, y);
    XorSelf(y);
    XorComm(x, y);
    XorAssoc(y, x, x);
  }

  lemma {:induction false} XorBound(x: nat, y: nat, n: nat)
    requires x < Pow2(n) && y < Pow2(n)
    ensures Xor(x, y) < Pow2(n)
    decreases n
  {
    if x != 0 && y != 0 { XorBound(x / 2, y / 2, n - 1); }
  }

  lemma XorBound32(x: u32, y: u32)
    ensures Xor(x, y) < 0x1_0000_0000
  {
    Pow2At32();
    XorBound(x, y, 32);
  }

  lemma Pow2At8()
    ensures Pow2(8) == 256
  {
  }

  lemma {:induction false} Pow2Add(a: nat, b: nat)
    ensures Pow2(a + b) == Pow2(a) * Pow2(b)
  {
    if a != 0 { Pow2Add(a - 1, b); }
  }

  lemma Pow2At32()
    ensures Pow2(16) == 0x1_0000 && Pow2(32) == 0x1_0000_0000 && Pow2(64) == 0x1_0000_0000_0000_0000
  {
    hide Pow2;
    Pow2At8();
    Pow2Add(8, 8);
    Pow2Add(16, 16);
    Pow2Add(32, 32);
  }

  lemma {:induction false} AndComm(x: nat, y: nat)
    ensures And(x, y) == And(y, x)
    decreases x + y
  {
    if x != 0 && y != 0 { AndComm(x / 2, y / 2); }
  }

  /** Masking with `n` one bits keeps the low `n` bits. */
  lemma {:induction false} AndOnes(x: nat, n: nat)
    ensures And(x, Pow2(n) - 1) == x % Pow2(n)
    decreases n
  {
    if n == 0 {
    } else if x != 0 {
      AndOnes(x / 2, n - 1);
      var p := Pow2(n - 1);
      assert (2 * p - 1) % 2 == 1 && (2 * p - 1) / 2 == p - 1;
      DivModBase(x, 2, p);
    }
  }

  lemma MulGrows(k: int, d: int)
    requires d > 0
    ensures k >= 1 ==> k * d >= d
    ensures k <= -1 ==> k * d <= -d
  {
  }

  lemma DivModUnique(x: int, d: int, q: int, r: int)
    requires d > 0 && 0 <= r < d && x == q * d + r
    ensures x / d == q && x % d == r
  {
    var q', r' := x / d, x % d;
    assert x == d * q' + r';
    var k := q - q';
    assert k * d == r' - r by { assert k * d == q * d - d * q'; }
    MulGrows(k, d);
    assert k == 0;
  }

  /** A mask splits at any bit position `n`; `p` is 2 to the power `n`. */
  lemma {:induction false} AndSplit(x: nat, m: nat, n: nat, p: nat, xl: nat, xh: nat, ml: nat, mh: nat)
    requires p == Pow2(n) && xl < p && ml < p
    requires x == xl + p * xh && m == ml + p * mh
    ensures And(x, m) == And(xl, ml) + p * And(xh, mh)
    decreases n
  {
    hide And;
    if n == 0 {
      AndParts(0, 0);
    } else {
      var q := Pow2(n - 1);
      DoubleMul(q, xh);
      DoubleMul(q, mh);
      DoubleMul(q, And(xh, mh));
      AndSplit(xl / 2 + q * xh, ml / 2 + q * mh, n - 1, q, xl / 2, xh, ml / 2, mh);
      AndSplitStep(x, m, xl, ml, q * xh, q * mh, q * And(xh, mh));
    }
  }

  lemma DoubleMul(q: nat, y: nat)
    ensures 2 * q * y == 2 * (q * y) && q * y >= 0
  {
  }

  lemma AndSplitStep(x: nat, m: nat, xl: nat, ml: nat, a: nat, b: nat, c: nat)
    requires x == xl + 2 * a && m == ml + 2 * b
    requires And(xl / 2 + a, ml / 2 + b) == And(xl / 2, ml / 2) + c
    ensures And(x, m) == And(xl, ml) + 2 * c
  {
    assert x / 2 == xl / 2 + a && m / 2 == ml / 2 + b;
    AndParts(x, m);
    AndParts(xl, ml);
  }

  lemma AndParts(x: nat, y: nat)
    ensures And(x, y) % 2 == (if x % 2 == 1 && y % 2 == 1 then 1 else 0)
    ensures And(x, y) / 2 == And(x / 2, y / 2)
  {
  }

  /** Division and remainder by a product, one factor at a time. */
  lemma DivModBase(x: nat, b: nat, p: nat)
    requires b > 0 && p > 0
    ensures b * p > 0
    ensures x / (b * p) == (x / b) / p
    ensures x % (b * p) == x % b + b * ((x / b) % p)
  {
    var y := x / b;
    DivModDef(x, b);
    DivModDef(y, p);
    DigitBound(b, p, y % p, x % b);
    TwoDigits(b, p, y / p, y % p, x % b);
    DivModUnique(x, b * p, y / p, b * (y % p) + x % b);
  }

  lemma DivModDef(x: nat, d: nat)
    requires d > 0
    ensures x == d * (x / d) + x % d && 0 <= x % d < d && x / d >= 0
  {
  }

  /** A number of two digits, the lower one to base `b`. */
  lemma DigitBound(b: nat, p: nat, r: nat, l: nat)
    requires l < b && r < p
    ensures 0 <= b * r + l < b * p
  {
    var k := p - 1 - r;
    assert b * p == b * r + b * k + b by {
      assert p == r + k + 1;
      assert b * (r + k + 1) == b * r + b * k + b;
    }
    assert b * k >= 0;
  }

  lemma TwoDigits(b: nat, p: nat, q: nat, r: nat, l: nat)
    ensures b * (p * q + r) + l == q * (b * p) + (b * r + l)
  {
    assert b * (p * q + r) == b * (p * q) + b * r;
    assert b * (p * q) == q * (b * p);
  }

  /** An or of numbers with no bit in common, the second above bit `n`, is a sum. */
  lemma {:induction false} OrDisjoint(x: nat, y: nat, n: nat)
    requires x < Pow2(n)
    ensures Or(x, Pow2(n) * y) == x + Pow2(n) * y
    decreases n
  {
    if n == 0 {
    } else {
      var p := Pow2(n - 1);
      assert Pow2(n) * y == 2 * (p * y);
      OrDisjoint(x / 2, y, n - 1);
      if x != 0 && Pow2(n) * y != 0 {
        assert (2 * (p * y)) / 2 == p * y;
      }
    }
  }

  /** Setting bit `n` of a number of `n + 1` bits. */
  lemma {:induction false} OrBit(x: nat, n: nat)
    requires x < 2 * Pow2(n)
    ensures Or(x, Pow2(n)) == Pow2(n) + if x < Pow2(n) then x else x - Pow2(n)
    decreases n
  {
    if n != 0 && x != 0 {
      OrBit(x / 2, n - 1);
      OrParts(x, Pow2(n));
    }
  }

  lemma OrParts(x: nat, y: nat)
    ensures Or(x, y) % 2 == (if x % 2 == 1 || y % 2 == 1 then 1 else 0)
    ensures Or(x, y) / 2 == Or(x / 2, y / 2)
  {
  }

  lemma {:induction false} OrBound(x: nat, y: nat, n: nat)
    requires x < Pow2(n) && y < Pow2(n)
    ensures Or(x, y) < Pow2(n)
    decreases n
  {
    if x != 0 && y != 0 { OrBound(x / 2, y / 2, n - 1); }
  }
}
