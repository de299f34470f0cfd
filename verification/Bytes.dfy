/**
Byte strings and the numbers they encode: the `uint32_pack`, `uint32_unpack` and
`uint16_pack_big` families of the C sources.
*/
module Bytes {
  import opened Bits

  /** The number a little-endian byte string denotes. */
  function Le(s: seq<byte>): nat
  {
    if |s| == 0 then 0 else s[0] + 256 * Le(s[1..])
  }

  /** The `n` low bytes of `x`, least significant first. */
  function ToLe(x: nat, n: nat): (s: seq<byte>)
    ensures |s| == n
    decreases n
  {
    if n == 0 then [] else [x % 256] + ToLe(x / 256, n - 1)
  }

  function Pow256(n: nat): (p: nat)
    ensures p >= 1
  {
    if n == 0 then 1 else 256 * Pow256(n - 1)
  }

  lemma {:induction false} LeBound(s: seq<byte>)
    ensures Le(s) < Pow256(|s|)
  {
    if |s| != 0 { LeBound(s[1..]); }
  }

  lemma {:induction false} LeToLe(x: nat, n: nat)
    requires x < Pow256(n)
    ensures Le(ToLe(x, n)) == x
    decreases n
  {
    if n != 0 {
      LeToLe(x / 256, n - 1);
      assert ToLe(x, n)[1..] == ToLe(x / 256, n - 1);
    }
  }

  lemma {:induction false} ToLeLe(s: seq<byte>)
    ensures ToLe(Le(s), |s|) == s
  {
    if |s| != 0 {
      ToLeLe(s[1..]);
      assert Le(s) / 256 == Le(s[1..]) && Le(s) % 256 == s[0];
    }
  }

  lemma MulTimes256(p: nat, q: nat)
    ensures 256 * p * q == 256 * (p * q) && p * q >= 0
  {
  }

  lemma {:induction false} LeConcat(a: seq<byte>, b: seq<byte>)
    ensures Le(a + b) == Le(a) + Pow256(|a|) * Le(b)
  {
    if |a| == 0 {
      assert a + b == b;
    } else {
      LeConcat(a[1..], b);
      assert (a + b)[1..] == a[1..] + b;
      MulTimes256(Pow256(|a| - 1), Le(b));
    }
  }

  function Unpack32(s: seq<byte>, i: nat): u32
    requires i + 4 <= |s|
  {
    var a: int, b: int, c: int, d: int := s[i], s[i + 1], s[i + 2], s[i + 3];
    a + 0x100 * b + 0x1_0000 * c + 0x100_0000 * d
  }

  function Pack32(u: u32): (s: seq<byte>)
    ensures |s| == 4
  {
    [u % 256, u / 256 % 256, u / 0x1_0000 % 256, u / 0x100_0000]
  }

  lemma UnpackPack32(u: u32)
    ensures Unpack32(Pack32(u), 0) == u
  {
    DivModBase(u, 256, 256);
    DivModBase(u, 0x1_0000, 256);
  }

  lemma Le4(s: seq<byte>)
    requires |s| == 4
    ensures Le(s) == Unpack32(s, 0)
  {
    assert Le(s) == s[0] + 256 * Le(s[1..]);
    assert Le(s[1..]) == s[1] + 256 * Le(s[1..][1..]);
    assert s[1..][1..] == s[2..];
    assert Le(s[2..]) == s[2] + 256 * Le(s[2..][1..]);
    assert s[2..][1..] == s[3..];
    assert Le(s[3..]) == s[3] + 256 * Le(s[3..][1..]);
  }

  lemma Pack32IsToLe(u: u32)
    ensures Pack32(u) == ToLe(u, 4)
  {
    assert ToLe(u, 4) == [u % 256] + ToLe(u / 256, 3);
    assert ToLe(u / 256, 3) == [u / 256 % 256] + ToLe(u / 256 / 256, 2);
    assert ToLe(u / 256 / 256, 2) == [u / 256 / 256 % 256] + ToLe(u / 256 / 256 / 256, 1);
    assert ToLe(u / 256 / 256 / 256, 1) == [u / 256 / 256 / 256 % 256] + ToLe(u / 256 / 256 / 256 / 256, 0);
  }

  lemma {:induction false} ToLeSplit(r: nat, q: nat, n: nat, k: nat)
    requires k <= n && r < Pow256(k)
    ensures ToLe(r + Pow256(k) * q, n) == ToLe(r, k) + ToLe(q, n - k)
    decreases n
  {
    if k != 0 {
      var p := Pow256(k - 1);
      ToLeSplit(r / 256, q, n - 1, k - 1);
      MulTimes256(p, q);
      ToLeDigit(r % 256, r / 256 + p * q, n);
    }
  }

  lemma ToLeDigit(l: byte, r: nat, k: nat)
    requires k != 0
    ensures ToLe(l + 256 * r, k) == [l] + ToLe(r, k - 1)
  {
    assert (l + 256 * r) % 256 == l && (l + 256 * r) / 256 == r;
  }

  /** Splitting off the four low bytes. */
  lemma ToLe4Split(x: nat, n: nat)
    requires n >= 4
    ensures ToLe(x, n) == ToLe(x % 0x1_0000_0000, 4) + ToLe(x / 0x1_0000_0000, n - 4)
  {
    assert Pow256(4) == 0x1_0000_0000;
    ToLeSplit(x % 0x1_0000_0000, x / 0x1_0000_0000, n, 4);
  }

  lemma {:induction false} Pow256Add(a: nat, b: nat)
    ensures Pow256(a + b) == Pow256(a) * Pow256(b)
  {
    if a != 0 { Pow256Add(a - 1, b); }
  }

  function Zeros(n: nat): (s: seq<byte>)
    ensures |s| == n && forall i :: 0 <= i < n ==> s[i] == 0
  {
    seq(n, _ => 0)
  }

  lemma ZerosSnoc(n: nat)
    ensures Zeros(n) + [0] == Zeros(n + 1)
  {
  }

  lemma {:induction false} LeZeros(n: nat)
    ensures Le(Zeros(n)) == 0
  {
    if n != 0 {
      assert Zeros(n)[1..] == Zeros(n - 1);
      LeZeros(n - 1);
    }
  }

  function Splice(m: seq<byte>, pos: nat, s: seq<byte>): (m': seq<byte>)
    requires pos + |s| <= |m|
    ensures |m'| == |m|
  {
    m[..pos] + s + m[pos + |s|..]
  }

  lemma SpliceHere(m: seq<byte>, pos: nat, s: seq<byte>)
    requires pos + |s| <= |m|
    ensures Splice(m, pos, s)[pos..pos + |s|] == s
  {
  }

  lemma SpliceElsewhere(m: seq<byte>, pos: nat, s: seq<byte>, a: nat, b: nat)
    requires pos + |s| <= |m| && a <= b <= |m| && (b <= pos || pos + |s| <= a)
    ensures Splice(m, pos, s)[a..b] == m[a..b]
  {
    var m' := Splice(m, pos, s);
    forall i | a <= i < b ensures m'[i] == m[i] {
    }
  }

  /** Adjacent writes are one write. */
  lemma SpliceSplice(m: seq<byte>, pos: nat, s: seq<byte>, t: seq<byte>)
    requires pos + |s| + |t| <= |m|
    ensures Splice(Splice(m, pos, s), pos + |s|, t) == Splice(m, pos, s + t)
  {
  }

  /** `byte_copy`: `s` is written at position `o`. */
  method CopyBytes(out: array<byte>, o: nat, s: seq<byte>)
    requires o + |s| <= out.Length
    modifies out
    ensures out[..] == Splice(old(out[..]), o, s)
    ensures out[o..o + |s|] == s
    ensures out[..o] == old(out[..o]) && out[o + |s|..] == old(out[o + |s|..])
  {
    for i := 0 to |s|
      invariant out[o..o + i] == s[..i]
      invariant out[..o] == old(out[..o]) && out[o + i..] == old(out[o + i..])
    {
      out[o + i] := s[i];
    }
    assert out[..] == out[..o] + out[o..o + |s|] + out[o + |s|..];
  }

  /** A slice of a slice. */
  lemma SliceSlice(m: seq<byte>, a: nat, b: nat, i: nat, j: nat)
    requires a <= b <= |m| && i <= j <= b - a
    ensures m[a..b][i..j] == m[a + i..a + j]
  {
    var s, t := m[a..b][i..j], m[a + i..a + j];
    assert |s| == |t|;
    forall x | 0 <= x < |s| ensures s[x] == t[x] {
    }
  }

  lemma {:induction false} ToLePrefix(x: nat, n: nat, k: nat)
    requires k <= n
    ensures ToLe(x, n)[..k] == ToLe(x, k)
    decreases n
  {
    if k != 0 { ToLePrefix(x / 256, n - 1, k - 1); }
  }

  /** Only the low `n` bytes matter. */
  lemma ToLeWraps(r: nat, q: nat, n: nat)
    requires r < Pow256(n)
    ensures ToLe(r + Pow256(n) * q, n) == ToLe(r, n)
  {
    ToLeSplit(r, q, n, n);
  }
}
