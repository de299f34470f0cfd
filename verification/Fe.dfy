/**
The limb operations of `fe.c`: products of two eight-limb numbers accumulated in sixteen 64-bit
limbs, the branch-free conditional swap and the conditional subtraction.
*/
module Fe {
  import opened Bits
  import opened Limbs

  // ----- fe_mul_

  /** What one partial product adds: `lo` at limb `k` and `hi` at limb `k + 1` together add `x` at weight `k`. */
  lemma AddProduct(s: seq<int>, k: nat, x: nat, f: int)
    requires k + 1 < |s|
    ensures var lo, hi := x % 0x1_0000_0000, x / 0x1_0000_0000;
            Val(s[k := s[k] + f * lo][k + 1 := s[k + 1] + f * hi]) == Val(s) + f * (x * Base(k))
  {
    var lo, hi := x % 0x1_0000_0000, x / 0x1_0000_0000;
    var t := s[k := s[k] + f * lo];
    ValUpdate(s, k, s[k] + f * lo);
    ValUpdate(t, k + 1, s[k + 1] + f * hi);
    var b := Base(k);
    assert Base(k + 1) == 0x1_0000_0000 * b;
    CarryStep(0, x, b);
    Distribute(f, lo, hi, b, x);
  }

  lemma Distribute(f: int, lo: int, hi: int, b: int, x: int)
    requires lo * b + hi * (0x1_0000_0000 * b) == x * b
    ensures f * lo * b + f * hi * (0x1_0000_0000 * b) == f * (x * b)
  {
    assert f * lo * b == f * (lo * b);
    assert f * hi * (0x1_0000_0000 * b) == f * (hi * (0x1_0000_0000 * b));
  }

  lemma MulMono(x: int, z: int, y: int)
    requires x <= z && 0 <= y
    ensures x * y <= z * y
  {
  }

  lemma MulWords(x: u32, y: u32)
    ensures 0 <= (x as int) * y < 0x1_0000_0000_0000_0000
    ensures (x as int) * y / 0x1_0000_0000 <= 0xffff_ffff
  {
    MulMono(x, 0xffff_ffff, y);
    MulMono(0, x, y);
  }

  /** The number of partial words added to limb `k` before row `i`, column `j` of the product. */
  function Added(i: int, j: int, k: int): int
  {
    2 * i + (if k < i + j then 2 else if k == i + j then 1 else 0)
  }

  lemma RowValue(p: int, u: int, w: int, q: int, v: int)
    ensures p * u * w + (p * q) * (u * v) == p * u * (w + q * v)
  {
    assert (p * q) * (u * v) == (p * u) * (q * v);
    assert p * u * (w + q * v) == p * u * w + (p * u) * (q * v);
  }

  /** The macros `M` (f = 1) and `M2` (f = 2) of lines 86-88 and 129-131. */
  method AddProductAt(o: array<u64>, k: nat, u: nat, f: nat)
    requires o.Length == 16 && k + 1 < 16 && u < 0x1_0000_0000_0000_0000 && 1 <= f <= 2
    requires o[k] <= 0x1000_0000_0000 && o[k + 1] <= 0x1000_0000_0000
    modifies o
    ensures Val(o[..]) == old(Val(o[..])) + f * (u * Base(k))
    ensures o[k] <= old(o[k]) + f * 0xffff_ffff && o[k + 1] <= old(o[k + 1]) + f * 0xffff_ffff
    ensures forall i :: 0 <= i < 16 && i != k && i != k + 1 ==> o[i] == old(o[i])
  {
    ghost var s: seq<int> := o[..];
    var lo, hi := u % 0x1_0000_0000, u / 0x1_0000_0000;
    o[k] := U64(o[k] + f * lo);
    o[k + 1] := U64(o[k + 1] + f * hi);
    AddProduct(s, k, u, f);
    assert o[k] == s[k] + f * lo && o[k + 1] == s[k + 1] + f * hi;
    assert o[..] == s[k := s[k] + f * lo][k + 1 := s[k + 1] + f * hi];
  }

  lemma RowDone(a: seq<u32>, b: seq<u32>, i: nat)
    requires i < |a|
    ensures Val(a[..i]) * Val(b) + a[i] * Base(i) * Val(b[..|b|]) == Val(a[..i + 1]) * Val(b)
  {
    ValTake(a, i);
    assert b[..|b|] == b;
    var x, y, v := Val(a[..i]), a[i] * Base(i), Val(b);
    assert (x + y) * v == x * v + y * v;
  }

  /** Lines 89-104 of `fe.c`, in the loop form its comment at lines 71-85 gives. */
  method Mul(o: array<u64>, a: array<u32>, b: array<u32>)
    requires o.Length == 16 && a.Length == 8 && b.Length == 8
    requires o as object != a && o as object != b
    modifies o
    ensures Val(o[..]) == Val(a[..]) * Val(b[..])
    ensures Bounded(o[..], 18 * 0xffff_ffff)
  {
    hide Val, Base;
    ghost var sa, sb := a[..], b[..];
    Clear(o);
    ValEmpty(sa[..0]);
    ValEmpty(sb[..0]);
    var i := 0;
    while i < 8
      invariant 0 <= i <= 8 && a[..] == sa && b[..] == sb
      invariant Val(o[..]) == Val(sa[..i]) * Val(sb)
      invariant forall k :: 0 <= k < 16 ==> o[k] <= Added(i, 0, k) * 0xffff_ffff
    {
      var j := 0;
      ghost var done, row := Val(sa[..i]) * Val(sb), sa[i] * Base(i);
      while j < 8
        invariant 0 <= j <= 8 && a[..] == sa && b[..] == sb
        invariant Val(o[..]) == done + row * Val(sb[..j])
        invariant forall k :: 0 <= k < 16 ==> o[k] <= Added(i, j, k) * 0xffff_ffff
      {
        MulWords(a[i], b[j]);
        AddProductAt(o, i + j, (a[i] as int) * b[j], 1);
        ValTake(sb, j);
        BaseAdd(i, j);
        RowValue(sa[i], Base(i), Val(sb[..j]), sb[j], Base(j));
        j := j + 1;
      }
      RowDone(sa, sb, i);
      i := i + 1;
    }
    assert sa[..i] == sa;
  }

  method Clear(o: array<u64>)
    modifies o
    ensures forall k :: 0 <= k < o.Length ==> o[k] == 0
    ensures Val(o[..]) == 0
  {
    for i := 0 to o.Length
      invariant forall k :: 0 <= k < i ==> o[k] == 0
    {
      o[i] := 0;
    }
    ValZero(o[..]);
  }

  lemma ValEmpty(s: seq<int>)
    ensures s == [] ==> Val(s) == 0
  {
  }

  lemma {:induction false} ValZero(s: seq<int>)
    requires forall k :: 0 <= k < |s| ==> s[k] == 0
    ensures Val(s) == 0
  {
    if |s| != 0 { ValZero(s[1..]); }
  }

  // ----- fe_sq_

  /** The diagonal of a square: the sum of the squares of the first `i` limbs, each at its weight. */
  function Diagonal(s: seq<u32>, i: nat): int
    requires i <= |s|
  {
    if i == 0 then 0 else Diagonal(s, i - 1) + s[i - 1] * Base(i - 1) * (s[i - 1] * Base(i - 1))
  }

  /** What is left of the square of `v` once the rows of the leading part are done and `t` is left over. */
  lemma SquareRow(v: int, t: int, d: int, t': int)
    requires t == d + t'
    ensures SquareLess(v, t) + 2 * (d * t') + d * d == SquareLess(v, t')
  {
    assert t * t == d * d + 2 * (d * t') + t' * t';
  }

  /** One row of doubled cross products. */
  method SqRow(o: array<u64>, a: array<u32>, i: nat)
    requires o.Length == 16 && a.Length == 8 && o as object != a && i < 8
    requires forall k :: 0 <= k < 16 ==> o[k] <= 2 * Added(i, i + 1, k) * 0xffff_ffff
    modifies o
    ensures Val(o[..]) == old(Val(o[..])) + 2 * (a[i] * Base(i) * (Val(a[..]) - Val(a[..i + 1])))
    ensures forall k :: 0 <= k < 16 ==> o[k] <= 2 * Added(i, 8, k) * 0xffff_ffff
  {
    hide Val, Base;
    ghost var sa, row, start := a[..], Val(o[..]), Val(a[..i + 1]);
    assert a[..i + 1] == sa[..i + 1];
    ghost var d := sa[i] * Base(i);
    var j := i + 1;
    while j < 8
      invariant i < j <= 8 && a[..] == sa
      invariant Val(o[..]) == row + 2 * (d * (Val(sa[..j]) - start))
      invariant forall k :: 0 <= k < 16 ==> o[k] <= 2 * Added(i, j, k) * 0xffff_ffff
    {
      MulWords(a[i], a[j]);
      AddProductAt(o, i + j, (a[i] as int) * a[j], 2);
      ValTake(sa, j);
      BaseAdd(i, j);
      RowValue(sa[i], Base(i), Val(sa[..j]) - start, sa[j], Base(j));
      j := j + 1;
    }
    assert sa[..j] == sa && a[..i + 1] == sa[..i + 1];
  }

  /** What is left of the square of `v` when a part `t` of it is still to come. */
  function SquareLess(v: int, t: int): int { v * v - t * t }

  /** The doubled cross products: the calls of `M2`, lines 142-148. */
  method SqCross(o: array<u64>, a: array<u32>)
    requires o.Length == 16 && a.Length == 8 && o as object != a
    modifies o
    ensures Val(o[..]) + Diagonal(a[..], 8) == Val(a[..]) * Val(a[..])
    ensures Bounded(o[..], 36 * 0xffff_ffff)
  {
    hide Val, Base;
    ghost var sa := a[..];
    ghost var v := Val(sa);
    Clear(o);
    ValEmpty(sa[..0]);
    var i := 0;
    while i < 8
      invariant 0 <= i <= 8 && a[..] == sa
      invariant Val(o[..]) + Diagonal(sa, i) == SquareLess(v, v - Val(sa[..i]))
      invariant forall k :: 0 <= k < 16 ==> o[k] <= 2 * Added(i, i + 1, k) * 0xffff_ffff
    {
      SqRow(o, a, i);
      assert a[..] == sa && a[..i + 1] == sa[..i + 1];
      ValTake(sa, i);
      SquareRow(v, v - Val(sa[..i]), sa[i] * Base(i), v - Val(sa[..i + 1]));
      i := i + 1;
    }
    assert sa[..i] == sa;
  }

  /** The squares: the calls of `SQ`, line 149. */
  method SqDiagonal(o: array<u64>, a: array<u32>)
    requires o.Length == 16 && a.Length == 8 && o as object != a && Bounded(o[..], 36 * 0xffff_ffff)
    modifies o
    ensures Val(o[..]) == old(Val(o[..])) + Diagonal(a[..], 8)
    ensures Bounded(o[..], 37 * 0xffff_ffff)
  {
    hide Val, Base;
    ghost var sa, was := a[..], Val(o[..]);
    for i := 0 to 8
      invariant a[..] == sa
      invariant Val(o[..]) == was + Diagonal(sa, i)
      invariant forall k :: 0 <= k < 16 ==> o[k] <= (if k < 2 * i then 37 else 36) * 0xffff_ffff
    {
      MulWords(a[i], a[i]);
      AddProductAt(o, 2 * i, (a[i] as int) * a[i], 1);
      BaseAdd(i, i);
      RowValue(sa[i], Base(i), 0, sa[i], Base(i));
    }
  }

  /** Lines 135-150 of `fe.c`, in the loop form its comment at lines 111-127 gives. */
  method Sq(o: array<u64>, a: array<u32>)
    requires o.Length == 16 && a.Length == 8 && o as object != a
    modifies o
    ensures Val(o[..]) == Val(a[..]) * Val(a[..])
    ensures Bounded(o[..], 37 * 0xffff_ffff)
  {
    ghost var sa := a[..];
    SqCross(o, a);
    assert a[..] == sa;
    SqDiagonal(o, a);
    assert a[..] == sa;
  }

  // ----- fe_cswap

  lemma XorMask(x: u32, y: u32, b: nat)
    requires b == 0 || b == 0xffff_ffff || b == 0xffff_ffff_ffff_ffff
    ensures And(b, Xor(x, y)) == (if b == 0 then 0 else Xor(x, y)) < 0x1_0000_0000
    ensures Xor(x, And(b, Xor(x, y))) == if b == 0 then x else y
    ensures Xor(y, And(b, Xor(x, y))) == if b == 0 then y else x
  {
    hide And, Xor;
    XorBound32(x, y);
    KeepAll(Xor(x, y), b);
    XorCancel(x, y);
    XorComm(y, Xor(x, y));
    XorZero(x);
    XorZero(y);
  }

  lemma KeepAll(z: u32, b: nat)
    requires b == 0 || b == 0xffff_ffff || b == 0xffff_ffff_ffff_ffff
    ensures And(b, z) == if b == 0 then 0 else z
  {
    hide Pow2, And;
    Pow2At32();
    AndOnes(z, 32);
    AndOnes(z, 64);
    AndComm(b, z);
    AndZero(z);
  }

  lemma AndZero(z: nat)
    ensures And(z, 0) == 0
  {
  }

  lemma XorZero(z: nat)
    ensures Xor(z, 0) == z
  {
  }

  /** Lines 39-50: a swap without a branch. */
  method Cswap(f: array<u32>, g: array<u32>, b: u32)
    requires f.Length == 8 && g.Length == 8 && f != g && b <= 1
    modifies f, g
    ensures f[..] == old(if b == 1 then g[..] else f[..])
    ensures g[..] == old(if b == 1 then f[..] else g[..])
  {
    hide Xor, And;
    var mask := U32(-(b as int));
    ghost var sf, sg := f[..], g[..];
    var t := new u32[8];
    for i := 0 to 8
      invariant f[..] == sf && g[..] == sg
      invariant forall k :: 0 <= k < i ==> t[k] == And(mask, Xor(sf[k], sg[k]))
    {
      XorMask(f[i], g[i], mask);
      t[i] := And(mask, Xor(f[i], g[i]));
    }
    for i := 0 to 8
      invariant g[..] == sg && forall k :: 0 <= k < 8 ==> t[k] == And(mask, Xor(sf[k], sg[k]))
      invariant forall k :: 0 <= k < 8 ==> f[k] == if k < i && b == 1 then sg[k] else sf[k]
    {
      XorMask(sf[i], sg[i], mask);
      f[i] := Xor(f[i], t[i]);
    }
    for i := 0 to 8
      invariant forall k :: 0 <= k < 8 ==> t[k] == And(mask, Xor(sf[k], sg[k]))
      invariant forall k :: 0 <= k < 8 ==> f[k] == if b == 1 then sg[k] else sf[k]
      invariant forall k :: 0 <= k < 8 ==> g[k] == if k < i && b == 1 then sf[k] else sg[k]
    {
      XorMask(sf[i], sg[i], mask);
      g[i] := Xor(g[i], t[i]);
    }
  }

  // ----- fe_reducesmall

  lemma BorrowStep(r: u32, p: u32, pb: int)
    requires 0 <= pb <= 1
    ensures var b := U64(r - (pb + p)) / 0x8000_0000_0000_0000;
            && b == (if (r as int) < pb + p then 1 else 0)
            && 0 <= r - (pb + p) + b * 0x1_0000_0000 < 0x1_0000_0000
            && U32(U64(r - (pb + p)) + b * 0x1_0000_0000) == r - (pb + p) + b * 0x1_0000_0000
  {
  }

  lemma BorrowValue(x: int, b: int, pb: int, r: int, p: int, w: int)
    requires x == r - (pb + p) + b * 0x1_0000_0000
    ensures x * w == r * w - p * w - pb * w + b * (0x1_0000_0000 * w)
  {
    MulWord(b, w);
    assert (r - (pb + p) + b * 0x1_0000_0000) * w == r * w - p * w - pb * w + (0x1_0000_0000 * b) * w;
  }

  /** Lines 161-166: t = r - p with a borrow. */
  method Subtract(t: array<u32>, r: array<u32>, p: seq<u32>) returns (pb: u64)
    requires t.Length == 8 && r.Length == 8 && |p| == 8 && t != r
    modifies t
    ensures pb == (if Val(r[..]) < Val(p) then 1 else 0)
    ensures Val(t[..]) == Val(r[..]) - Val(p) + pb * Base(8)
  {
    hide Val, Base;
    ghost var sr := r[..];
    var b: u64 := 0;
    pb := 0;
    ValEmpty(sr[..0]);
    ValEmpty(p[..0]);
    ValEmpty(t[..0]);
    for i := 0 to 8
      invariant 0 <= pb <= 1 && r[..] == sr
      invariant Val(t[..i]) == Val(sr[..i]) - Val(p[..i]) + pb * Base(i)
    {
      BorrowStep(r[i], p[i], pb);
      ghost var was := pb;
      ghost var head := t[..i];
      pb := U64(pb + p[i]);
      b := U64(r[i] - pb) / 0x8000_0000_0000_0000;
      t[i] := U32(U64(r[i] - pb) + b * 0x1_0000_0000);
      pb := b;
      assert t[..i] == head;
      ValTake(t[..], i);
      assert t[..][..i + 1] == t[..i + 1] && t[..][..i] == t[..i];
      ValTake(sr, i);
      ValTake(p, i);
      BorrowValue(t[i], b, was, sr[i], p[i], Base(i));
      BaseNext(i);
    }
    assert t[..8] == t[..] && sr[..8] == sr && p[..8] == p;
    WordBound(t[..]);
    WordBound(sr);
    WordBound(p);
    BorrowOut(Val(t[..]), Val(sr), Val(p), pb, Base(8));
  }

  /** Lines 155-171: one subtraction of `p`, kept when it does not borrow. */
  method ReduceSmall(r: array<u32>, p: seq<u32>, carry: u64)
    requires r.Length == 8 && |p| == 8 && carry < 0x8000_0000_0000_0000
    modifies r
    ensures var x, v := old(Val(r[..])), Val(p);
            Val(r[..]) == if carry == 0 && x < v then x else x - v + (if x < v then Base(8) else 0)
  {
    hide Val, Base, Xor, And;
    ghost var sr := r[..];
    var t := new u32[8];
    var pb := Subtract(t, r, p);
    ghost var st := t[..];
    assert r[..] == sr;
    var b := U64(carry - pb) / 0x8000_0000_0000_0000;
    assert b == if carry == 0 && pb == 1 then 1 else 0;
    b := U64(b - 1);
    for i := 0 to 8
      invariant t[..] == st
      invariant forall k :: 0 <= k < 8 ==> r[k] == if k < i && b != 0 then st[k] else sr[k]
    {
      XorMask(sr[i], st[i], b);
      r[i] := Xor(r[i], And(b, Xor(r[i], t[i])));
    }
    assert r[..] == if b != 0 then st else sr;
  }

  lemma BorrowOut(t: int, r: int, p: int, pb: int, w: int)
    requires t == r - p + pb * w && 0 <= t < w && 0 <= r < w && 0 <= p < w && 0 <= pb <= 1
    ensures pb == if r < p then 1 else 0
  {
    assert pb == 0 || pb == 1;
  }

  lemma BaseNext(i: nat)
    ensures Base(i + 1) == 0x1_0000_0000 * Base(i)
  {
  }
}
