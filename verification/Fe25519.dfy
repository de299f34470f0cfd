/**
Arithmetic modulo 2^255 - 19 on eight 32-bit limbs (`fe25519.c`). Every operation may be called
with its result array aliasing an argument. The results are proved congruent to the integer
operation and below twice the prime, so that the one conditional subtraction of `ToBytes` yields
the canonical representative.
*/
module Fe25519 {
  import opened Bits
  import opened Bytes
  import opened Limbs
  import opened Modular
  import Fe

  const P: int := 0x7fff_ffff_ffff_ffff_ffff_ffff_ffff_ffff_ffff_ffff_ffff_ffff_ffff_ffff_ffff_ffed

  // ----- the field, over the integers

  function Residue(x: int): (r: int)
    ensures 0 <= r < P
  {
    x % P
  }

  function Add(a: int, b: int): int { Residue(a + b) }

  function Sub(a: int, b: int): int { Residue(a - b) }

  function Mul(a: int, b: int): int { Residue(a * b) }

  lemma ResidueOp(a: int, b: int)
    ensures Residue(a + b) == Add(Residue(a), Residue(b))
    ensures Residue(a - b) == Sub(Residue(a), Residue(b))
    ensures Residue(a * b) == Mul(Residue(a), Residue(b))
  {
    ModIdem(a, P);
    ModIdem(b, P);
    ModAdd(a, a % P, b, b % P, P);
    ModSub(a, a % P, b, b % P, P);
    ModMul(a, a % P, b, b % P, P);
  }

  // ----- limbs

  /** The field element an array of limbs stands for. */
  ghost function Elem(a: array<u32>): int
    reads a
  {
    Residue(Val(a[..]))
  }

  /** What every operation leaves: eight limbs of a number below 2 p. */
  ghost predicate Small(a: array<u32>)
    reads a
  {
    a.Length == 8 && Val(a[..]) < 2 * P
  }

  /** The second pass of every operation: `u` is added and carried through. */
  method AddCarry(o: array<u32>, c: u64)
    requires o.Length == 8 && c < 0x1_0000_0000
    requires Val(o[..]) + c < Base(8)
    modifies o
    ensures Val(o[..]) == old(Val(o[..])) + c
  {
    hide Val, Base;
    ghost var so := o[..];
    var u: u64 := c;
    PassStart(so);
    for i := 0 to 8
      invariant u < 0x1_0000_0000
      invariant forall k :: i <= k < 8 ==> o[k] == so[k]
      invariant Val(o[..i]) + u * Base(i) == c + Val(so[..i])
    {
      u := Cut(o, i, U64(u + o[i]), u, so, c);
    }
    assert so[..8] == so && o[..8] == o[..];
    WordBound(o[..]);
    BaseAt8();
    NoCarry(Val(o[..]), u, Base(8), c + Val(so));
  }

  lemma NoCarry(v: int, u: int, b: int, t: int)
    requires 0 <= v && 0 <= u && 0 < b && v + u * b == t < b
    ensures u == 0 && v == t
  {
    MulGrows(u, b);
  }

  /** A sum cut at bit 255 and folded back: 2^255 is 19 modulo p. */
  lemma Fold(s: int, v: int, c: int)
    requires s == v + c * 0x8000_0000_0000_0000_0000_0000_0000_0000_0000_0000_0000_0000_0000_0000_0000_0000
    requires 0 <= v < 0x8000_0000_0000_0000_0000_0000_0000_0000_0000_0000_0000_0000_0000_0000_0000_0000
    requires 0 <= c < 0x2_0000_0000
    ensures v + 19 * c < 2 * P && v + 19 * c < Base(8)
    ensures Residue(v + 19 * c) == Residue(s)
  {
    BaseAt8();
    assert s == v + 19 * c + c * P;
    ModPlus(v + 19 * c, c, P);
  }

  /**
  One step of a first pass over the terms `t`: limb `i` of the result is cut off the running carry.
  The invariant is that the limbs cut off so far and the carry at its weight add up to the terms.
  */
  lemma PassStep(head: seq<int>, u: int, t: seq<int>, i: nat, z: int)
    requires |head| == i < |t| && Val(head) + u * Base(i) == z + Val(t[..i])
    ensures var v := u + t[i];
            Val(head + [v % 0x1_0000_0000]) + v / 0x1_0000_0000 * Base(i + 1) == z + Val(t[..i + 1])
  {
    hide Val, Base;
    ValSnoc(head, (u + t[i]) % 0x1_0000_0000);
    CarryStep(u, t[i], Base(i));
    Fe.BaseNext(i);
    ValTake(t, i);
  }

  lemma PassStart(t: seq<int>)
    ensures Base(0) == 1 && Val([]) == 0 && Val(t[..0]) == 0
  {
  }

  /** `o[i] = v & 0xffffffff; u = v >> 32`, for a running sum `v` that took up term `i`. */
  method Cut(o: array<u32>, i: nat, v: u64, ghost u: int, ghost t: seq<int>, ghost z: int) returns (u': u64)
    requires o.Length == 8 && i < 8 && i < |t| && v == u + t[i]
    requires Val(o[..i]) + u * Base(i) == z + Val(t[..i])
    modifies o
    ensures Val(o[..i + 1]) + u' * Base(i + 1) == z + Val(t[..i + 1])
    ensures u' == v / 0x1_0000_0000 && forall k :: 0 <= k < 8 && k != i ==> o[k] == old(o[k])
  {
    hide Val, Base;
    ghost var head := o[..i];
    PassStep(head, u, t, i, z);
    o[i] := v % 0x1_0000_0000;
    u' := v / 0x1_0000_0000;
    assert o[..i + 1] == head + [o[i]];
  }

  /** The last step of a first pass: the top limb keeps 31 bits. */
  lemma PassTop(head: seq<int>, u: int, t: seq<int>)
    requires |head| == 7 && |t| == 8 && 0 <= u + t[7] && Val(head) + u * Base(7) == Val(t[..7])
    requires forall k :: 0 <= k < 7 ==> 0 <= head[k] < 0x1_0000_0000
    ensures var v := u + t[7];
            var l := Val(head + [v % 0x8000_0000]);
            && 0 <= l < 0x8000_0000_0000_0000_0000_0000_0000_0000_0000_0000_0000_0000_0000_0000_0000_0000
            && Val(t) == l + v / 0x8000_0000
                             * 0x8000_0000_0000_0000_0000_0000_0000_0000_0000_0000_0000_0000_0000_0000_0000_0000
  {
    hide Base, Val;
    BaseAt8();
    ValTake(t, 7);
    assert t[..8] == t;
    ValSnoc(head, (u + t[7]) % 0x8000_0000);
    assert Bounded(head, 1 * 0xffff_ffff);
    ValBound(head, 1);
  }

  /**
  The last three lines of `fe25519_mul121666`, `fe25519_add` and `fe25519_sub`: the top limb `v`
  is cut at bit 255, the rest folded back and carried.
  */
  method FoldTop(o: array<u32>, v: u64, ghost u: int, ghost t: seq<int>)
    requires o.Length == 8 && |t| == 8 && v == u + t[7] && v < 0x8_0000_0000_0000
    requires Val(o[..7]) + u * Base(7) == Val(t[..7])
    modifies o
    ensures Small(o) && Elem(o) == Residue(Val(t))
  {
    hide Residue, Val, Base;
    ghost var head := o[..7];
    PassTop(head, u, t);
    o[7] := v % 0x8000_0000;
    var c := v / 0x8000_0000;
    assert o[..] == head + [o[7]];
    Fold(Val(t), Val(o[..]), c);
    c := U64(c * 19);
    AddCarry(o, c);
  }

  /** Sums of limbs are limbs of sums. */
  lemma {:induction false} ValLinear(t: seq<int>, p: seq<int>, x: seq<int>, y: seq<int>, a: int, b: int)
    requires |t| == |p| == |x| == |y|
    requires forall i :: 0 <= i < |t| ==> t[i] == p[i] + a * x[i] + b * y[i]
    ensures Val(t) == Val(p) + a * Val(x) + b * Val(y)
  {
    if |t| != 0 {
      ValLinear(t[1..], p[1..], x[1..], y[1..], a, b);
      MulWord(a, Val(x[1..]));
      MulWord(b, Val(y[1..]));
      assert a * (x[0] + 0x1_0000_0000 * Val(x[1..])) == a * x[0] + a * (0x1_0000_0000 * Val(x[1..]));
      assert b * (y[0] + 0x1_0000_0000 * Val(y[1..])) == b * y[0] + b * (0x1_0000_0000 * Val(y[1..]));
    }
  }

  const ZERO: seq<int> := [0, 0, 0, 0, 0, 0, 0, 0]

  lemma ValOfZero()
    ensures Val(ZERO) == 0
  {
    Fe.ValZero(ZERO);
  }

  /** `fe25519_add`, lines 81-89. */
  method AddTo(o: array<u32>, x: array<u32>, y: array<u32>)
    requires o.Length == 8 && x.Length == 8 && y.Length == 8
    modifies o
    ensures Small(o) && Elem(o) == Add(old(Elem(x)), old(Elem(y)))
  {
    hide Val, Base;
    ghost var sx, sy := x[..], y[..];
    ghost var t := SumTerms(sx, sy);
    var u: u64 := 0;
    PassStart(t);
    for i := 0 to 7
      invariant u <= 1
      invariant forall k :: i <= k < 8 ==> x[k] == sx[k] && y[k] == sy[k]
      invariant Val(o[..i]) + u * Base(i) == Val(t[..i])
    {
      u := Cut(o, i, U64(u + x[i] + y[i]), u, t, 0);
    }
    ghost var was := u;
    u := U64(u + x[7] + y[7]);
    FoldTop(o, u, was, t);
    SumOfTerms(sx, sy);
  }

  ghost function SumTerms(x: seq<u32>, y: seq<u32>): (t: seq<int>)
    requires |x| == |y| == 8
    ensures |t| == 8 && forall i :: 0 <= i < 8 ==> t[i] == (x[i] as int) + y[i]
  {
    seq(8, i requires 0 <= i < 8 => (x[i] as int) + y[i])
  }

  lemma SumOfTerms(x: seq<u32>, y: seq<u32>)
    requires |x| == |y| == 8
    ensures Residue(Val(SumTerms(x, y))) == Add(Residue(Val(x)), Residue(Val(y)))
  {
    hide Val;
    ValOfZero();
    ValLinear(SumTerms(x, y), ZERO, x, y, 1, 1);
    ResidueOp(Val(x), Val(y));
  }

  /** Three times the prime, limb by limb without carries (lines 19-22). */
  const P3: seq<u64> := [0x2_ffff_ffc7, 0x2_ffff_fffd, 0x2_ffff_fffd, 0x2_ffff_fffd,
                         0x2_ffff_fffd, 0x2_ffff_fffd, 0x2_ffff_fffd, 0x1_7fff_fffd]

  lemma P3Value()
    ensures Val(P3) == 3 * P
  {
    var lo: seq<int>, hi: seq<int> := P3[..4], P3[4..];
    ValConcat(lo, hi);
    assert lo + hi == P3;
    Val4(lo);
    Val4(hi);
    assert Base(4) == 0x1_0000_0000_0000_0000_0000_0000_0000_0000;
  }

  lemma Val4(s: seq<int>)
    requires |s| == 4
    ensures Val(s) == s[0] + 0x1_0000_0000 * s[1] + 0x1_0000_0000_0000_0000 * s[2]
                      + 0x1_0000_0000_0000_0000_0000_0000 * s[3]
  {
    assert s[1..][1..] == s[2..] && s[2..][1..] == s[3..] && s[3..][1..] == [];
    assert Val(s[3..]) == s[3] + 0x1_0000_0000 * Val([]);
    assert Val(s[2..]) == s[2] + 0x1_0000_0000 * Val(s[3..]);
  }

  /** `fe25519_sub`, lines 95-103: 3 p is added limb by limb, so no limb goes below zero. */
  method SubTo(o: array<u32>, x: array<u32>, y: array<u32>)
    requires o.Length == 8 && x.Length == 8 && y.Length == 8
    modifies o
    ensures Small(o) && Elem(o) == Sub(old(Elem(x)), old(Elem(y)))
  {
    hide Val, Base;
    ghost var sx, sy := x[..], y[..];
    ghost var t := DifferenceTerms(sx, sy);
    var u: u64 := 0;
    PassStart(t);
    for i := 0 to 7
      invariant u <= 4
      invariant forall k :: i <= k < 8 ==> x[k] == sx[k] && y[k] == sy[k]
      invariant Val(o[..i]) + u * Base(i) == Val(t[..i])
    {
      NoUnderflow(i, x[i], y[i], u);
      u := Cut(o, i, U64(u + U64(U64(P3[i] - y[i]) + x[i])), u, t, 0);
    }
    ghost var was := u;
    NoUnderflow(7, x[7], y[7], u);
    u := U64(u + U64(U64(P3[7] - y[7]) + x[7]));
    FoldTop(o, u, was, t);
    DifferenceOfTerms(sx, sy);
  }

  lemma NoUnderflow(i: nat, x: u32, y: u32, u: u64)
    requires i < 8 && u <= 4
    ensures U64(u + U64(U64(P3[i] - y) + x)) == u + ((P3[i] as int) - y + x) < 0x4_0000_0010
  {
  }

  ghost function DifferenceTerms(x: seq<u32>, y: seq<u32>): (t: seq<int>)
    requires |x| == |y| == 8
    ensures |t| == 8 && forall i :: 0 <= i < 8 ==> t[i] == (P3[i] as int) - y[i] + x[i]
  {
    seq(8, i requires 0 <= i < 8 => (P3[i] as int) - y[i] + x[i])
  }

  lemma DifferenceOfTerms(x: seq<u32>, y: seq<u32>)
    requires |x| == |y| == 8
    ensures Residue(Val(DifferenceTerms(x, y))) == Sub(Residue(Val(x)), Residue(Val(y)))
  {
    hide Val;
    P3Value();
    ValLinear(DifferenceTerms(x, y), P3, x, y, 1, -1);
    ModPlus(Val(x) - Val(y), 3, P);
    ResidueOp(Val(x), Val(y));
  }

  /** `fe25519_mul121666`, lines 67-75. */
  method Mul121666(o: array<u32>, f: array<u32>)
    requires o.Length == 8 && f.Length == 8
    modifies o
    ensures Small(o) && Elem(o) == Mul(121666, old(Elem(f)))
  {
    hide Val, Base;
    ghost var sf := f[..];
    ghost var t := ScaledTerms(sf);
    var u: u64 := 0;
    PassStart(t);
    for i := 0 to 7
      invariant u <= 121666
      invariant forall k :: i <= k < 8 ==> f[k] == sf[k]
      invariant Val(o[..i]) + u * Base(i) == Val(t[..i])
    {
      u := Cut(o, i, U64(u + 121666 * (f[i] as int)), u, t, 0);
    }
    ghost var was := u;
    u := U64(u + 121666 * (f[7] as int));
    FoldTop(o, u, was, t);
    ScaleOfTerms(sf);
  }

  ghost function ScaledTerms(x: seq<u32>): (t: seq<int>)
    requires |x| == 8
    ensures |t| == 8 && forall i :: 0 <= i < 8 ==> t[i] == 121666 * (x[i] as int)
  {
    seq(8, i requires 0 <= i < 8 => 121666 * (x[i] as int))
  }

  lemma ScaleOfTerms(x: seq<u32>)
    requires |x| == 8
    ensures Residue(Val(ScaledTerms(x))) == Mul(121666, Residue(Val(x)))
  {
    hide Val, Residue;
    ValOfZero();
    ValLinear(ScaledTerms(x), ZERO, x, x, 121666, 0);
    ResidueOp(121666, Val(x));
    SmallFactor();
  }

  lemma SmallFactor()
    ensures Residue(121666) == 121666
  {
    ModSmall(121666, P);
  }

  // ----- products

  /** The second pass of `fe25519_reducebig`, line 35. */
  method CopyCarry(o: array<u32>, t: array<u64>, c: u64)
    requires o.Length == 8 && t.Length == 16 && c < 0x40_0000_0000 && o as object != t
    requires forall k :: 0 <= k < 8 ==> t[k] < 0x1_0000_0000
    requires Val(t[..8]) + c < Base(8)
    modifies o
    ensures Val(o[..]) == Val(t[..8]) + c
  {
    hide Val, Base;
    ghost var st := t[..8];
    var u: u64 := c;
    PassStart(st);
    for i := 0 to 8
      invariant u < 0x40_0000_0000 && t[..8] == st
      invariant Val(o[..i]) + u * Base(i) == c + Val(st[..i])
    {
      u := Cut(o, i, U64(u + t[i]), u, st, c);
    }
    assert st[..8] == st && o[..8] == o[..];
    WordBound(o[..]);
    BaseAt8();
    NoCarry(Val(o[..]), u, Base(8), c + Val(st));
  }

  method CutWide(o: array<u64>, i: nat, v: u64, ghost u: int, ghost t: seq<int>) returns (u': u64)
    requires o.Length == 16 && i < 16 && i < |t| && v == u + t[i]
    requires Val(o[..i]) + u * Base(i) == Val(t[..i])
    modifies o
    ensures Val(o[..i + 1]) + u' * Base(i + 1) == Val(t[..i + 1])
    ensures u' == v / 0x1_0000_0000 && o[i] < 0x1_0000_0000 && forall k :: 0 <= k < 16 && k != i ==> o[k] == old(o[k])
  {
    hide Val, Base;
    ghost var head := o[..i];
    PassStep(head, u, t, i, 0);
    o[i] := v % 0x1_0000_0000;
    u' := v / 0x1_0000_0000;
    assert o[..i + 1] == head + [o[i]];
  }

  /** Line 33, up to the fold: the top limb of the lower half keeps 31 bits. */
  method CutTop(t: array<u64>, v: u64, ghost u: int, ghost terms: seq<int>) returns (c: u64)
    requires t.Length == 16 && |terms| == 8 && v == u + terms[7]
    requires Val(t[..7]) + u * Base(7) == Val(terms[..7])
    requires forall k :: 0 <= k < 7 ==> t[k] < 0x1_0000_0000
    modifies t
    ensures c < 0x2_0000_0000 && forall k :: 0 <= k < 8 ==> t[k] < 0x1_0000_0000
    ensures var l := Val(t[..8]);
            && 0 <= l < 0x8000_0000_0000_0000_0000_0000_0000_0000_0000_0000_0000_0000_0000_0000_0000_0000
            && Val(terms) == l + c * 0x8000_0000_0000_0000_0000_0000_0000_0000_0000_0000_0000_0000_0000_0000_0000_0000
  {
    hide Val, Base;
    ghost var head := t[..7];
    PassTop(head, u, terms);
    t[7] := v % 0x8000_0000;
    assert t[..8] == head + [t[7]];
    c := v / 0x8000_0000;
  }

  /** The first pass of `fe25519_reducebig`, lines 32-33. */
  method FoldUpper(t: array<u64>) returns (c: u64)
    requires t.Length == 16 && Foldable(t[..])
    modifies t
    ensures c < 0x2_0000_0000 && forall k :: 0 <= k < 8 ==> t[k] < 0x1_0000_0000
    ensures var l := Val(t[..8]);
            && 0 <= l < 0x8000_0000_0000_0000_0000_0000_0000_0000_0000_0000_0000_0000_0000_0000_0000_0000
            && old(Val(FoldedTerms(t[..])))
               == l + c * 0x8000_0000_0000_0000_0000_0000_0000_0000_0000_0000_0000_0000_0000_0000_0000_0000
  {
    hide Val, Base, Foldable, FoldedTerms;
    ghost var st := t[..];
    ghost var terms := FoldedTerms(st);
    var u: u64 := 0;
    PassStart(terms);
    for i := 0 to 7
      invariant u < 0x1_0000_0000
      invariant forall k :: i <= k < 16 ==> t[k] == st[k]
      invariant forall k :: 0 <= k < i ==> t[k] < 0x1_0000_0000
      invariant Val(t[..i]) + u * Base(i) == Val(terms[..i])
    {
      TermBound(st, i);
      u := CutWide(t, i, U64(u + t[i] + 38 * (t[i + 8] as int)), u, terms);
    }
    TermBound(st, 7);
    c := CutTop(t, U64(u + t[7] + 38 * (t[15] as int)), u, terms);
  }

  /** No limb of the lower half, 38 times that of the upper half and a carry added, leaves 64 bits. */
  ghost predicate Foldable(s: seq<u64>)
  {
    |s| == 16 && forall i :: 0 <= i < 8 ==> s[i] + 38 * (s[i + 8] as int) + 0xffff_ffff <= 0xffff_ffff_ffff_ffff
  }

  lemma TermBound(s: seq<u64>, i: nat)
    requires i < 8 && Foldable(s)
    ensures |FoldedTerms(s)| == 8
    ensures FoldedTerms(s)[i] == s[i] + 38 * (s[i + 8] as int) <= 0xffff_ffff_ffff_ffff - 0xffff_ffff
  {
    hide FoldedTerms;
  }

  /** The limbs of a product, and those of a square, can be folded. */
  lemma ProductFoldable(s: seq<u64>)
    requires |s| == 16 && Bounded(s, 37 * 0xffff_ffff)
    ensures Foldable(s)
  {
    forall i | 0 <= i < 8 ensures s[i] + 38 * (s[i + 8] as int) + 0xffff_ffff <= 0xffff_ffff_ffff_ffff {
      assert s[i] <= 37 * 0xffff_ffff && s[i + 8] <= 37 * 0xffff_ffff;
    }
  }

  /** `fe25519_reducebig`, lines 27-36: sixteen limbs to eight, the upper half folded back times 38. */
  method ReduceBig(o: array<u32>, t: array<u64>)
    requires o.Length == 8 && t.Length == 16 && o as object != t && Foldable(t[..])
    modifies o, t
    ensures Small(o) && Elem(o) == Residue(old(Val(t[..])))
  {
    hide Val, Base;
    ghost var st := t[..];
    var u := FoldUpper(t);
    Fold(Val(FoldedTerms(st)), Val(t[..8]), u);
    u := U64(u * 19);
    CopyCarry(o, t, u);
    FoldOfTerms(st);
  }

  ghost function FoldedTerms(s: seq<u64>): (t: seq<int>)
    requires |s| == 16
    ensures |t| == 8 && forall i :: 0 <= i < 8 ==> t[i] == s[i] + 38 * (s[i + 8] as int)
  {
    seq(8, i requires 0 <= i < 8 => s[i] + 38 * (s[i + 8] as int))
  }

  lemma FoldOfTerms(s: seq<u64>)
    requires |s| == 16
    ensures Residue(Val(FoldedTerms(s))) == Residue(Val(s))
  {
    hide Val, Base, Residue, FoldedTerms;
    var a, b := s[..8], s[8..];
    FoldedLinear(s, a, b);
    ValConcat(a, b);
    assert a + b == s;
    FoldHigh(Val(a), Val(b));
  }

  lemma FoldedLinear(s: seq<u64>, a: seq<u64>, b: seq<u64>)
    requires |s| == 16 && a == s[..8] && b == s[8..]
    ensures Val(FoldedTerms(s)) == Val(a) + 38 * Val(b)
  {
    hide Val;
    ValOfZero();
    var t := FoldedTerms(s);
    assert forall i :: 0 <= i < 8 ==> a[i] == s[i] && b[i] == s[i + 8];
    ValLinear(t, ZERO, a, b, 1, 38);
  }

  /** 2^256 is 38 modulo p. */
  lemma FoldHigh(low: int, high: int)
    ensures Residue(low + 38 * high) == Residue(low + Base(8) * high)
  {
    BaseAt8();
    hide Base;
    assert low + Base(8) * high == low + 38 * high + (2 * high) * P;
    ModPlus(low + 38 * high, 2 * high, P);
  }

  /** `fe25519_mul`, lines 41-49. */
  method MulTo(o: array<u32>, a: array<u32>, b: array<u32>)
    requires o.Length == 8 && a.Length == 8 && b.Length == 8
    modifies o
    ensures Small(o) && Elem(o) == Mul(old(Elem(a)), old(Elem(b)))
  {
    hide Val;
    ghost var sa, sb := a[..], b[..];
    var t := new u64[16];
    Fe.Mul(t, a, b);
    assert a[..] == sa && b[..] == sb;
    ProductFoldable(t[..]);
    ReduceBig(o, t);
    ResidueOp(Val(sa), Val(sb));
  }

  /** `fe25519_sq`, lines 54-62. */
  method SqTo(o: array<u32>, a: array<u32>)
    requires o.Length == 8 && a.Length == 8
    modifies o
    ensures Small(o) && Elem(o) == Mul(old(Elem(a)), old(Elem(a)))
  {
    hide Val;
    ghost var sa := a[..];
    var t := new u64[16];
    Fe.Sq(t, a);
    assert a[..] == sa;
    ProductFoldable(t[..]);
    ReduceBig(o, t);
    ResidueOp(Val(sa), Val(sa));
  }
}
