/**
The base-32 digits of DNSCurve (`dq/dns_base32.c`, `curvedns/misc.c`): a byte string is a number,
least significant byte first, written in digits of five bits, least significant digit first.
*/
module Base32 {
  import opened Bits
  import opened Bytes
  import opened Wrappers

  type digit = x: int | 0 <= x < 32

  /** The `n` low digits of `x`. */
  function Digits(x: nat, n: nat): (s: seq<digit>)
    ensures |s| == n
    decreases n
  {
    if n == 0 then [] else [x % 32] + Digits(x / 32, n - 1)
  }

  /** The number digits denote. */
  function Number(s: seq<digit>): nat { if s == [] then 0 else s[0] + 32 * Number(s[1..]) }

  lemma {:induction false} NumberDigits(x: nat, n: nat)
    requires x < Pow2(5 * n)
    ensures Number(Digits(x, n)) == x
    decreases n
  {
    if n != 0 {
      Pow2Five(n - 1);
      NumberDigits(x / 32, n - 1);
      assert Digits(x, n)[1..] == Digits(x / 32, n - 1);
    }
  }

  lemma Pow2Five(n: nat)
    ensures Pow2(5 * (n + 1)) == 32 * Pow2(5 * n)
  {
    assert 5 * (n + 1) == 5 + 5 * n;
    Pow2Add(5, 5 * n);
    assert Pow2(5) == 32;
  }

  lemma {:induction false} LeBelow(s: seq<byte>)
    ensures Le(s) < Pow2(8 * |s|)
  {
    if s != [] {
      LeBelow(s[1..]);
      Pow2Add(8, 8 * (|s| - 1));
      Pow2At8();
    }
  }

  /** The table `0123456789bcdfghjklmnpqrstuvwxyz`: the letters without a, e, i and o. */
  function Letter(d: digit): byte
  {
    if d < 10 then 48 + d else if d < 13 then 88 + d else if d < 16 then 89 + d else if d < 21 then 90 + d else 91 + d
  }

  function Text(ds: seq<digit>): (s: seq<byte>)
    ensures |s| == |ds| && forall i :: 0 <= i < |ds| ==> s[i] == Letter(ds[i])
  {
    seq(|ds|, i requires 0 <= i < |ds| => Letter(ds[i]))
  }

  /** How many digits `n` bytes take. */
  function Needed(n: nat): nat { (8 * n + 4) / 5 }

  /** The text of a byte string. */
  function Encoded(s: seq<byte>): (t: seq<byte>)
    ensures |t| == Needed(|s|)
  {
    Text(Digits(Le(s), Needed(|s|)))
  }

  /** What is left to be written: the bits in hand and the bytes to come. */
  function Left(v: nat, vbits: nat, s: seq<byte>): nat { v + Pow2(vbits) * Le(s) }

  /** A byte more in hand. */
  lemma TakeByte(v: nat, vbits: nat, s: seq<byte>)
    requires s != [] && v < Pow2(vbits)
    ensures Or(v, Shl(s[0], vbits)) < Pow2(vbits + 8)
    ensures Left(Or(v, Shl(s[0], vbits)), vbits + 8, s[1..]) == Left(v, vbits, s)
  {
    hide Pow2, Or, Le;
    var p, b: nat, r := Pow2(vbits), s[0], Le(s[1..]);
    OrDisjoint(v, b, vbits);
    MulComm(b, p);
    Pow2Add(vbits, 8);
    Pow2At8();
    assert Le(s) == b + 256 * r by { LeHead(s); }
    TakeByteSum(v, p, b, r);
  }

  lemma LeHead(s: seq<byte>)
    requires s != []
    ensures Le(s) == s[0] + 256 * Le(s[1..])
  {
  }

  lemma MulComm(a: nat, b: nat)
    ensures a * b == b * a
  {
  }

  lemma TakeByteSum(v: nat, p: nat, b: nat, r: nat)
    requires v < p && b < 256
    ensures v + b * p < p * 256 && v + b * p + p * 256 * r == v + p * (b + 256 * r)
  {
    MulLe(b, 255, p);
    assert p * (b + 256 * r) == p * b + p * (256 * r);
    assert p * 256 * r == p * (256 * r);
  }

  lemma MulLe(a: nat, b: nat, p: nat)
    requires a <= b
    ensures a * p <= b * p
  {
  }

  /** A digit written. */
  lemma GiveDigit(v: nat, vbits: nat, s: seq<byte>, n: nat)
    requires v < Pow2(vbits) && vbits >= 5 && n > 0
    ensures Digits(Left(v, vbits, s), n) == [v % 32] + Digits(Left(v / 32, vbits - 5, s), n - 1)
    ensures v / 32 < Pow2(vbits - 5)
  {
    var x := Left(v, vbits, s);
    Pow2Add(5, vbits - 5);
    assert Pow2(5) == 32;
    var y := Pow2(vbits - 5) * Le(s);
    assert Pow2(vbits) * Le(s) == 32 * y by { MulAssoc(32, Pow2(vbits - 5), Le(s)); }
    assert x == v + 32 * y;
    assert x % 32 == v % 32 && x / 32 == v / 32 + y;
  }

  lemma MulAssoc(a: nat, b: nat, c: nat)
    ensures a * b * c == a * (b * c)
  {
  }

  lemma LastDigit(v: nat, vbits: nat)
    requires v < Pow2(vbits) && vbits < 5
    ensures v < 32 && Digits(v, 1) == [v]
    ensures vbits == 0 ==> v == 0
  {
    BelowFive(v, vbits);
    assert Digits(v, 1) == [v % 32] + Digits(v / 32, 0);
    assert Digits(v / 32, 0) == [];
  }

  lemma BelowFive(v: nat, vbits: nat)
    requires v < Pow2(vbits) && vbits < 5
    ensures v < 32 && (vbits == 0 ==> v == 0)
  {
    if vbits == 4 { assert Pow2(4) == 16; }
    else if vbits == 3 { assert Pow2(3) == 8; }
    else if vbits == 2 { assert Pow2(2) == 4; }
  }

  // ----- decoding

  /**
  The table `kValues`, lines 240-246 of `misc.c`, which is also that of `dns_base32.c`, lines 58-75: capitals
  count as small letters.
  */
  function ValueOf(c: byte): (v: Option<digit>)
  {
    var l: int := if 65 <= c <= 90 then c + 32 else c as int;
    if 48 <= l <= 57 then Some(l - 48)
    else if 98 <= l <= 100 then Some(l - 88)
    else if 102 <= l <= 104 then Some(l - 89)
    else if 106 <= l <= 110 then Some(l - 90)
    else if 112 <= l <= 122 then Some(l - 91)
    else None
  }

  predicate AllDigits(s: seq<byte>) { forall i :: 0 <= i < |s| ==> ValueOf(s[i]).Some? }

  function DigitsOf(s: seq<byte>): (ds: seq<digit>)
    requires AllDigits(s)
    ensures |ds| == |s| && forall i :: 0 <= i < |s| ==> ds[i] == ValueOf(s[i]).value
  {
    seq(|s|, i requires 0 <= i < |s| => ValueOf(s[i]).value)
  }

  /** The tables are inverse to each other. */
  lemma LetterValue(d: digit)
    ensures ValueOf(Letter(d)) == Some(d)
  {
  }

  lemma TextDigits(ds: seq<digit>)
    ensures AllDigits(Text(ds)) && DigitsOf(Text(ds)) == ds
  {
    forall i | 0 <= i < |ds| ensures ValueOf(Text(ds)[i]) == Some(ds[i]) { LetterValue(ds[i]); }
    assert AllDigits(Text(ds));
  }

  /** What a text decodes to: whole bytes only, or with the last bits as one more byte. */
  function Decoded(s: seq<byte>, partial: bool): (r: Option<seq<byte>>)
    ensures r.Some? ==> |r.value| == 5 * |s| / 8 + if partial && 5 * |s| % 8 != 0 then 1 else 0
  {
    if !AllDigits(s) then None
    else
      var x, n := Number(DigitsOf(s)), 5 * |s| / 8;
      if partial then Some(ToLe(x, n + if 5 * |s| % 8 != 0 then 1 else 0))
      else if 5 * |s| % 8 >= 5 || x / Pow2(8 * n) != 0 then None
      else Some(ToLe(x, n))
  }

  /** Every byte string is recovered from its text. */
  lemma RoundTrip(s: seq<byte>)
    ensures Decoded(Encoded(s), false) == Some(s)
  {
    var n := Needed(|s|);
    var ds := Digits(Le(s), n);
    TextDigits(ds);
    LeBelow(s);
    Pow2Mono(8 * |s|, 5 * n);
    NumberDigits(Le(s), n);
    assert 5 * n / 8 == |s| && 5 * n % 8 < 5;
    ToLeLe(s);
    SmallDiv(Le(s), Pow2(8 * |s|));
  }

  lemma SmallDiv(x: nat, p: nat)
    requires x < p
    ensures x / p == 0
  {
    DivModUnique(x, p, 0, x);
  }

  lemma {:induction false} Pow2Mono(a: nat, b: nat)
    requires a <= b
    ensures Pow2(a) <= Pow2(b)
  {
    if a < b { Pow2Mono(a, b - 1); }
  }

  /** The text of a key: 51 digits, which is one bit short of 256. */
  function KeyText(key: seq<byte>): (t: seq<byte>)
    requires |key| == 32
    ensures |t| == 51
  {
    Text(Digits(Le(key), 51))
  }

  /** A key is recovered exactly if its top bit is zero. */
  lemma KeyRoundTrip(key: seq<byte>)
    requires |key| == 32
    ensures Decoded(KeyText(key), true).Some? && |Decoded(KeyText(key), true).value| == 32
    ensures Decoded(KeyText(key), true) == Some(key) <==> key[31] < 128
  {
    hide Pow2;
    var x := Le(key);
    var ds := Digits(x, 51);
    TextDigits(ds);
    NumberBound(ds);
    LeTop(key);
    assert 5 * 51 == 255 && 255 % 8 != 0 && 255 / 8 + 1 == 32;
    var y := Number(ds);
    assert Decoded(KeyText(key), true) == Some(ToLe(y, 32));
    if key[31] < 128 {
      NumberDigits(x, 51);
      ToLeLe(key);
    } else if ToLe(y, 32) == key {
      KeyFits();
      LeToLe(y, 32);
    }
  }

  lemma KeyFits()
    ensures Pow2(255) <= Pow256(32)
  {
    hide Pow2;
    Pow256Pow2(32);
    Pow2Mono(255, 256);
  }

  lemma {:induction false} Pow256Pow2(n: nat)
    ensures Pow256(n) == Pow2(8 * n)
  {
    if n != 0 {
      Pow256Pow2(n - 1);
      Pow2Add(8, 8 * (n - 1));
      Pow2At8();
    }
  }

  lemma {:induction false} NumberBound(ds: seq<digit>)
    ensures Number(ds) < Pow2(5 * |ds|)
  {
    if ds != [] {
      NumberBound(ds[1..]);
      Pow2Five(|ds| - 1);
    }
  }

  /** The top bit decides on which side of the power of two a key is. */
  lemma LeTop(key: seq<byte>)
    requires |key| == 32
    ensures Le(key) < Pow2(255) <==> key[31] < 128
  {
    hide Pow2, Pow256, Le;
    var lo, b := key[..31], key[31];
    assert key == lo + [b];
    LeConcat(lo, [b]);
    LeOne(b);
    LeBelow(lo);
    Pow256Pow2(31);
    Pow2Add(248, 7);
    SevenBits();
    TopByte(Le(lo), Pow2(248), b);
  }

  lemma SevenBits()
    ensures Pow2(7) == 128
  {
  }

  lemma LeOne(b: byte)
    ensures Le([b]) == b
  {
    assert Le([b][1..]) == 0;
  }

  lemma TopByte(lo: nat, p: nat, b: byte)
    requires lo < p
    ensures lo + p * b < p * 128 <==> b < 128
  {
    if b < 128 { MulLe(b, 127, p); } else { MulLe(128, b, p); }
  }
}
