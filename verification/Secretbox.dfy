/**
The secret box of the bundled crypto library (`crypto_secretbox_xsalsa20poly1305.c`, `salsa.c`,
`verify.c`). The 64 bytes `salsa_core` makes of a key, a nonce and a counter are given as a function
of the counter, in its two 32-bit words.
*/
module Secretbox {
  import opened Bits
  import opened Bytes
  import opened Poly1305

  type Core = (u32, u32) -> seq<byte>

  ghost predicate CoreOk(core: Core) { forall lo: u32, hi: u32 :: |core(lo, hi)| == 64 }

  /** Byte `i` of the stream: block `i / 64` has the counter `i / 64`, modulo 2 to the 64. */
  function StreamByte(core: Core, i: nat): byte
    requires CoreOk(core)
  {
    core(U32(i / 64), U32(i / 64 / 0x1_0000_0000))[i % 64]
  }

  function XorByte(a: byte, b: byte): (r: byte)
  {
    XorFits(a, b);
    Xor(a, b)
  }

  lemma XorFits(a: byte, b: byte)
    ensures Xor(a, b) < 256
  {
    Pow2At8();
    XorBound(a, b, 8);
  }

  lemma XorTwice(a: byte, b: byte)
    ensures XorByte(XorByte(a, b), b) == a && XorByte(0, b) == b
  {
    XorCancel(a, b);
  }

  /** A message with the stream laid over it. */
  function Masked(core: Core, m: seq<byte>): (c: seq<byte>)
    requires CoreOk(core)
    ensures |c| == |m| && forall i :: 0 <= i < |m| ==> c[i] == XorByte(m[i], StreamByte(core, i))
  {
    seq(|m|, i requires 0 <= i < |m| => XorByte(m[i], StreamByte(core, i)))
  }

  function Stream(core: Core, n: nat): (s: seq<byte>)
    requires CoreOk(core)
    ensures |s| == n && forall i :: 0 <= i < n ==> s[i] == StreamByte(core, i)
  {
    seq(n, i requires 0 <= i < n => StreamByte(core, i))
  }

  lemma MaskedTwice(core: Core, m: seq<byte>)
    requires CoreOk(core)
    ensures Masked(core, Masked(core, m)) == m
  {
    hide StreamByte;
    forall i | 0 <= i < |m| ensures Masked(core, Masked(core, m))[i] == m[i] { XorTwice(m[i], StreamByte(core, i)); }
  }

  lemma MaskedZeros(core: Core, n: nat)
    requires CoreOk(core)
    ensures Masked(core, Zeros(n)) == Stream(core, n)
  {
    hide StreamByte;
    forall i | 0 <= i < n ensures Masked(core, Zeros(n))[i] == Stream(core, n)[i] { XorTwice(0, StreamByte(core, i)); }
  }

  lemma MaskedPrefix(core: Core, m: seq<byte>, n: nat)
    requires CoreOk(core) && n <= |m|
    ensures Masked(core, m)[..n] == Masked(core, m[..n])
  {
    hide StreamByte;
  }

  // ----- the stream

  /** Lines 81-86: the 64-bit counter in two words, counted up. */
  method Count(lo: u32, hi: u32) returns (lo': u32, hi': u32)
    ensures (lo' as int) + 0x1_0000_0000 * hi' == ((lo as int) + 0x1_0000_0000 * hi + 1) % 0x1_0000_0000_0000_0000
  {
    var u: u64 := 1;
    u := U64(u + lo);
    lo' := U32(u);
    u := u / 0x1_0000_0000;
    u := U64(u + hi);
    hi' := U32(u);
    CountCarry(lo, hi);
  }

  /** The carry of the lower word goes to the upper one; that of the upper one is lost. */
  lemma CountCarry(lo: u32, hi: u32)
    ensures U64(1 + lo) == 1 + lo && (1 + lo) / 0x1_0000_0000 == (if lo == 0xffff_ffff then 1 else 0)
    ensures U32(1 + lo) == if lo == 0xffff_ffff then 0 else lo + 1
    ensures var c := if lo == 0xffff_ffff then 1 else 0;
            U64(c + hi) == c + hi && U32(c + hi) == if c + hi == 0x1_0000_0000 then 0 else c + hi
    ensures var x := (lo as int) + 0x1_0000_0000 * hi + 1;
            x % 0x1_0000_0000_0000_0000 == if x == 0x1_0000_0000_0000_0000 then 0 else x
  {
  }

  lemma CountWords(lo: u32, hi: u32, b: nat)
    requires (lo as int) + 0x1_0000_0000 * hi == b % 0x1_0000_0000_0000_0000
    ensures lo == U32(b) && hi == U32(b / 0x1_0000_0000)
  {
    DivModBase(b, 0x1_0000_0000, 0x1_0000_0000);
  }

  lemma CountNext(x: int, b: nat)
    requires x == b % 0x1_0000_0000_0000_0000
    ensures (x + 1) % 0x1_0000_0000_0000_0000 == (b + 1) % 0x1_0000_0000_0000_0000
  {
  }

  /** Line 79 and line 94: `n` bytes of a block from byte `at` on; the message may be the output. */
  method XorBlock(c: array<byte>, co: nat, m: array<byte>, mo: nat, at: nat, x: seq<byte>, n: nat)
    requires n <= |x| && co + at + n <= c.Length && mo + at + n <= m.Length && (c != m || co == mo)
    modifies c
    ensures forall i :: 0 <= i < c.Length && (i < co + at || i >= co + at + n) ==> c[i] == old(c[i])
    ensures forall i :: 0 <= i < n ==> c[co + at + i] == XorByte(old(m[mo + at + i]), x[i])
  {
    for i := 0 to n
      invariant forall k :: 0 <= k < c.Length && (k < co + at || k >= co + at + i) ==> c[k] == old(c[k])
      invariant forall k :: 0 <= k < i ==> c[co + at + k] == XorByte(old(m[mo + at + k]), x[k])
    {
      c[co + at + i] := XorByte(m[mo + at + i], x[i]);
    }
  }

  /** The stream laid over the first `n` of `l` bytes, the rest of the output as it was. */
  ghost predicate Covered(core: Core, c0: seq<byte>, m0: seq<byte>, c: seq<byte>, co: nat, n: nat)
    requires CoreOk(core)
  {
    && n <= |m0| && co + |m0| <= |c0| && |c| == |c0|
    && (forall i :: 0 <= i < |c0| && (i < co || i >= co + n) ==> c[i] == c0[i])
    && forall i :: 0 <= i < n ==> c[co + i] == XorByte(m0[i], StreamByte(core, i))
  }

  lemma CoveredNext(core: Core, c0: seq<byte>, m0: seq<byte>, c: seq<byte>, c': seq<byte>, co: nat, pos: nat,
                    x: seq<byte>, n: nat)
    requires CoreOk(core) && Covered(core, c0, m0, c, co, pos) && pos % 64 == 0 && n <= 64 && pos + n <= |m0|
             && |c'| == |c|
    requires x == core(U32(pos / 64), U32(pos / 64 / 0x1_0000_0000))
    requires forall i :: 0 <= i < |c| && (i < co + pos || i >= co + pos + n) ==> c'[i] == c[i]
    requires forall i :: 0 <= i < n ==> c'[co + pos + i] == XorByte(m0[pos + i], x[i])
    ensures Covered(core, c0, m0, c', co, pos + n)
  {
    forall i | 0 <= i < pos + n ensures c'[co + i] == XorByte(m0[i], StreamByte(core, i)) {
      if i >= pos {
        var k := i - pos;
        assert i / 64 == pos / 64 && i % 64 == k;
        assert c'[co + pos + k] == XorByte(m0[pos + k], x[k]);
      }
    }
  }

  /** `salsa_stream_xor`, lines 64-98, with a message; the output may be the message itself. */
  method StreamXor(core: Core, c: array<byte>, co: nat, m: array<byte>, mo: nat, l: nat)
    requires CoreOk(core) && co + l <= c.Length && mo + l <= m.Length && (c != m || co == mo)
    modifies c
    ensures c[co..co + l] == Masked(core, old(m[mo..mo + l]))
    ensures c[..co] == old(c[..co]) && c[co + l..] == old(c[co + l..])
  {
    hide StreamByte, Covered;
    ghost var c0, m0 := c[..], m[mo..mo + l];
    var lo: u32, hi: u32, pos: nat := 0, 0, 0;
    CoveredStart(core, c0, m0, co);
    while l - pos >= 64
      invariant pos <= l && pos % 64 == 0 && Covered(core, c0, m0, c[..], co, pos)
      invariant (lo as int) + 0x1_0000_0000 * hi == (pos / 64) % 0x1_0000_0000_0000_0000
      invariant c != m ==> m[mo..mo + l] == m0
    {
      CountWords(lo, hi, pos / 64);
      Block(core, c, co, m, mo, pos, core(lo, hi), 64, c0, m0);
      CountNext((lo as int) + 0x1_0000_0000 * hi, pos / 64);
      lo, hi := Count(lo, hi);
      pos := pos + 64;
    }
    if pos < l {
      CountWords(lo, hi, pos / 64);
      Block(core, c, co, m, mo, pos, core(lo, hi), l - pos, c0, m0);
    }
    CoveredAll(core, c0, m0, c[..], co);
  }

  /** A whole block, or what is left of the message. */
  method Block(core: Core, c: array<byte>, co: nat, m: array<byte>, mo: nat, pos: nat, x: seq<byte>, n: nat,
               ghost c0: seq<byte>, ghost m0: seq<byte>)
    requires CoreOk(core) && co + |m0| <= c.Length && mo + |m0| <= m.Length && (c != m || co == mo) && pos % 64 == 0
             && n <= 64 && pos + n <= |m0|
    requires Covered(core, c0, m0, c[..], co, pos) && x == core(U32(pos / 64), U32(pos / 64 / 0x1_0000_0000))
    requires if c != m then m[mo..mo + |m0|] == m0 else m0 == c0[co..co + |m0|]
    modifies c
    ensures Covered(core, c0, m0, c[..], co, pos + n)
  {
    hide StreamByte;
    ghost var was := c[..];
    forall k | pos <= k < pos + n ensures m[mo + k] == m0[k] {
      if c != m { assert m[mo..mo + |m0|][k] == m[mo + k]; }
      else { assert c[..][co + k] == c0[co + k]; }
    }
    XorBlock(c, co, m, mo, pos, x, n);
    CoveredNext(core, c0, m0, was, c[..], co, pos, x, n);
  }

  lemma CoveredStart(core: Core, c0: seq<byte>, m0: seq<byte>, co: nat)
    requires CoreOk(core) && co + |m0| <= |c0|
    ensures Covered(core, c0, m0, c0, co, 0)
  {
  }

  lemma CoveredAll(core: Core, c0: seq<byte>, m0: seq<byte>, c: seq<byte>, co: nat)
    requires CoreOk(core) && Covered(core, c0, m0, c, co, |m0|)
    ensures co + |m0| <= |c| == |c0| && c[co..co + |m0|] == Masked(core, m0) && c[..co] == c0[..co]
            && c[co + |m0|..] == c0[co + |m0|..]
  {
    hide StreamByte;
    var s, t := c[co..co + |m0|], Masked(core, m0);
    forall i | 0 <= i < |m0| ensures s[i] == t[i] { assert c[co + i] == XorByte(m0[i], StreamByte(core, i)); }
  }

  // ----- the tag

  lemma XorZero(a: nat, b: nat)
    ensures Xor(a, b) == 0 <==> a == b
  {
    XorCancel(a, b);
    XorSelf(a);
  }

  /** `verify`, lines 3-10: 0 if the strings are equal, -1 if not, whatever the place of the difference. */
  method Verify(x: seq<byte>, y: seq<byte>) returns (r: int)
    requires |x| == |y|
    ensures r == if x == y then 0 else -1
  {
    hide Xor, Or;
    var d: u32 := 0;
    var i := 0;
    while i < |x|
      invariant 0 <= i <= |x| && d < 256 && (d == 0 <==> x[..i] == y[..i])
    {
      Pow2At8();
      XorFits(x[i], y[i]);
      OrBound(d, Xor(x[i], y[i]), 8);
      XorZero(x[i], y[i]);
      assert x[..i + 1] == x[..i] + [x[i]] && y[..i + 1] == y[..i] + [y[i]];
      assert x[i] != y[i] ==> x[..i + 1][i] != y[..i + 1][i];
      assert x[..i] != y[..i]
             ==> x[..i + 1] != y[..i + 1] by { assert x[..i] == x[..i + 1][..i] && y[..i] == y[..i + 1][..i]; }
      OrZero(d, Xor(x[i], y[i]));
      d := Or(d, Xor(x[i], y[i]));
      i := i + 1;
    }
    assert x[..|x|] == x && y[..|y|] == y;
    var u: u32 := U32(d - 1);
    r := (u / 256) % 2 - 1;
  }

  lemma OrZero(a: nat, b: nat)
    ensures Or(a, b) == 0 <==> a == 0 && b == 0
  {
  }

  // ----- the box

  /** What is sealed: sixteen zero bytes, the tag and the masked text, the tag keyed by the start of the stream. */
  function Sealed(core: Core, m: seq<byte>): (c: seq<byte>)
    requires CoreOk(core) && |m| >= 32
    ensures |c| == |m|
  {
    var x := Masked(core, m);
    Zeros(16) + Mac(x[32..], x[..32]) + x[32..]
  }

  /** Whether the tag of a box is right. */
  predicate TagOk(core: Core, c: seq<byte>)
    requires CoreOk(core)
  {
    |c| >= 32 && c[16..32] == Mac(c[32..], Stream(core, 32))
  }

  /** What is in a box. */
  function Opened(core: Core, c: seq<byte>): (m: seq<byte>)
    requires CoreOk(core) && |c| >= 32
    ensures |m| == |c|
  {
    Zeros(32) + Masked(core, c)[32..]
  }

  /** A sealed message opens, and is the message. */
  lemma OpenSealed(core: Core, m: seq<byte>)
    requires CoreOk(core) && |m| >= 32 && m[..32] == Zeros(32)
    ensures TagOk(core, Sealed(core, m)) && Opened(core, Sealed(core, m)) == m
  {
    hide Mac, StreamByte;
    var x, c := Masked(core, m), Sealed(core, m);
    MaskedPrefix(core, m, 32);
    MaskedZeros(core, 32);
    assert c[16..32] == Mac(x[32..], x[..32]) && c[32..] == x[32..];
    MaskedTwice(core, m);
    var a, b := Masked(core, c), Masked(core, x);
    forall i | 32 <= i < |m| ensures a[i] == b[i] { assert c[i] == c[32..][i - 32] == x[32..][i - 32] == x[i]; }
    assert a[32..] == m[32..];
    assert m == m[..32] + m[32..];
  }

  /** `crypto_secretbox_xsalsa20poly1305_tinynacl`, lines 6-14; in place if `c` is `m`. */
  method Seal(core: Core, c: array<byte>, m: array<byte>, mlen: nat) returns (r: int)
    requires CoreOk(core) && mlen <= c.Length && mlen <= m.Length && mlen < 0x8000_0000_0000_0000
    modifies c
    ensures r == if mlen < 32 then -1 else 0
    ensures r == 0 ==> c[..mlen] == Sealed(core, old(m[..mlen]))
    ensures r != 0 ==> c[..] == old(c[..])
  {
    hide Mac, StreamByte;
    if mlen < 32 { return -1; }
    ghost var m0 := m[..mlen];
    assert m0 == m[0..0 + mlen];
    StreamXor(core, c, 0, m, 0, mlen);
    ghost var x := c[0..mlen];
    assert x[32..] == c[32..32 + (mlen - 32)] && x[..32] == c[0..0 + 32];
    Onetimeauth(c, 16, c, 32, mlen - 32, c, 0);
    SealZero(c, mlen, x);
    return 0;
  }

  /** Line 12. */
  method SealZero(c: array<byte>, mlen: nat, ghost x: seq<byte>)
    requires 32 <= mlen <= c.Length && |x| == mlen && c[16..32] == Mac(x[32..], x[..32]) && c[32..mlen] == x[32..]
    modifies c
    ensures c[..mlen] == Zeros(16) + Mac(x[32..], x[..32]) + x[32..]
  {
    hide Mac;
    for i := 0 to 16
      invariant forall k :: 0 <= k < i ==> c[k] == 0
      invariant forall k :: 16 <= k < c.Length ==> c[k] == old(c[k])
    {
      c[i] := 0;
    }
    assert c[16..32] == old(c[16..32]) && c[32..mlen] == old(c[32..mlen]);
    assert c[..16] == Zeros(16);
    assert c[..mlen] == c[..16] + c[16..32] + c[32..mlen];
  }

  /** `crypto_secretbox_xsalsa20poly1305_tinynacl_open`, lines 16-27; in place if `m` is `c`. */
  method Open(core: Core, m: array<byte>, c: array<byte>, clen: nat) returns (r: int)
    requires CoreOk(core) && clen <= c.Length && clen <= m.Length && clen < 0x8000_0000_0000_0000
    modifies m
    ensures r == if TagOk(core, old(c[..clen])) then 0 else -1
    ensures r == 0 ==> m[..clen] == Opened(core, old(c[..clen]))
    ensures r != 0 ==> m[..] == old(m[..])
  {
    hide Mac, StreamByte;
    if clen < 32 { return -1; }
    ghost var c0 := c[..clen];
    var key, correct := new byte[32](_ => 0), new byte[16];
    assert key[0..32] == Zeros(32);
    StreamXor(core, key, 0, key, 0, 32);
    MaskedZeros(core, 32);
    assert key[0..0 + 32] == Stream(core, 32);
    Onetimeauth(correct, 0, c, 32, clen - 32, key, 0);
    assert c0[16..32] == c[16..32] && c0[32..] == c[32..32 + (clen - 32)];
    assert correct[..16] == correct[0..0 + 16];
    r := Verify(c[16..32], correct[..16]);
    if r != 0 { return; }
    StreamXor(core, m, 0, c, 0, clen);
    assert m[..clen] == m[0..0 + clen] && c0 == c0[0..0 + clen];
    OpenZero(m, clen);
  }

  /** Line 24. */
  method OpenZero(m: array<byte>, clen: nat)
    requires 32 <= clen <= m.Length
    modifies m
    ensures m[..clen] == Zeros(32) + old(m[..clen])[32..]
  {
    for i := 0 to 32
      invariant forall k :: 0 <= k < i ==> m[k] == 0
      invariant m[32..] == old(m[32..])
    {
      m[i] := 0;
    }
    assert m[32..clen] == m[32..][..clen - 32];
    assert old(m[..clen])[32..] == old(m[32..])[..clen - 32];
    assert m[..clen] == m[..32] + m[32..clen];
    assert m[..32] == Zeros(32);
  }
}
